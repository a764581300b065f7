/**
 * What the document store offers the handlers besides get/insert/patch/delete:
 * an index scan, which yields a set of documents in id order, and the array
 * `filter`/`length` the handlers apply to what a scan collected.
 */
module Tables {

  /** `m` is the smallest element of `s`. */
  predicate IsLeast(m: nat, s: set<nat>)
  {
    m in s && forall k :: k in s ==> m <= k
  }

  lemma {:induction false} LeastExists(s: set<nat>)
    requires s != {}
    ensures exists m :: IsLeast(m, s)
    decreases s
  {
    var x :| x in s;
    if s == {x} {
      assert IsLeast(x, s);
    } else {
      LeastExists(s - {x});
      var m' :| IsLeast(m', s - {x});
      var m := if x < m' then x else m';
      forall k | k in s ensures m <= k {
        if k != x {
          assert k in s - {x};
        }
      }
      assert IsLeast(m, s);
    }
  }

  /** The documents whose ids are in `s`, collected in ascending id order. */
  function Ascending(s: set<nat>): (r: seq<nat>)
    ensures |r| == |s|
    ensures forall x :: x in r <==> x in s
    ensures forall i, j :: 0 <= i < j < |r| ==> r[i] < r[j]
    ensures multiset(r) == multiset(s)
    decreases s
  {
    if s == {} then []
    else
      LeastExists(s);
      var m :| IsLeast(m, s);
      var rest := Ascending(s - {m});
      AscendingCons(s, m, rest);
      [m] + rest
  }

  lemma AscendingCons(s: set<nat>, m: nat, rest: seq<nat>)
    requires IsLeast(m, s)
    requires |rest| == |s - {m}|
    requires forall x :: x in rest <==> x in s - {m}
    requires forall i, j :: 0 <= i < j < |rest| ==> rest[i] < rest[j]
    requires multiset(rest) == multiset(s - {m})
    ensures |[m] + rest| == |s|
    ensures forall x :: x in [m] + rest <==> x in s
    ensures forall i, j :: 0 <= i < j < |[m] + rest| ==> ([m] + rest)[i] < ([m] + rest)[j]
    ensures multiset([m] + rest) == multiset(s)
  {
    LeastContents(s, m, rest);
    LeastFirst(s, m, rest);
  }

  lemma LeastContents(s: set<nat>, m: nat, rest: seq<nat>)
    requires m in s
    requires multiset(rest) == multiset(s - {m})
    ensures multiset([m] + rest) == multiset(s)
  {
    assert s == (s - {m}) + {m};
    assert multiset(s) == multiset(s - {m}) + multiset{m};
  }

  lemma LeastFirst(s: set<nat>, m: nat, rest: seq<nat>)
    requires IsLeast(m, s)
    requires forall x :: x in rest <==> x in s - {m}
    requires forall i, j :: 0 <= i < j < |rest| ==> rest[i] < rest[j]
    ensures forall i, j :: 0 <= i < j < |[m] + rest| ==> ([m] + rest)[i] < ([m] + rest)[j]
  {
    var r := [m] + rest;
    forall i, j | 0 <= i < j < |r| ensures r[i] < r[j] {
      if i == 0 {
        assert r[j] == rest[j - 1] && r[j] in s - {m};
      } else {
        assert r[i] == rest[i - 1] && r[j] == rest[j - 1];
      }
    }
  }

  /** Array `filter`: the elements of `s` that satisfy `p`. */
  function Filter<T(!new)>(s: seq<T>, p: T -> bool): (r: seq<T>)
    ensures |r| <= |s|
    ensures forall i :: 0 <= i < |r| ==> p(r[i])
    ensures forall x :: multiset(r)[x] == if p(x) then multiset(s)[x] else 0
  {
    if s == [] then []
    else
      assert s == [s[0]] + s[1..];
      if p(s[0]) then [s[0]] + Filter(s[1..], p) else Filter(s[1..], p)
  }

  /** `s.filter(p).length`: none when no element passes, all when every element passes. */
  function Count<T(!new)>(s: seq<T>, p: T -> bool): (c: nat)
    ensures c <= |s|
    ensures (forall i :: 0 <= i < |s| ==> !p(s[i])) ==> c == 0
    ensures (forall i :: 0 <= i < |s| ==> p(s[i])) ==> c == |s|
  {
    var r := Filter(s, p);
    if forall i :: 0 <= i < |s| ==> !p(s[i]) then
      assert multiset(r) == multiset{} by {
        forall x ensures multiset(r)[x] == 0 {
        }
      }
      |r|
    else if forall i :: 0 <= i < |s| ==> p(s[i]) then
      assert multiset(r) == multiset(s) by {
        forall x ensures multiset(r)[x] == multiset(s)[x] {
        }
      }
      |r|
    else
      |r|
  }

  /** When the elements that fail `p` are exactly those that pass `q`, the two counts add up to the length. */
  lemma {:induction false} CountComplement<T(!new)>(s: seq<T>, p: T -> bool, q: T -> bool)
    requires forall i :: 0 <= i < |s| ==> q(s[i]) == !p(s[i])
    ensures Count(s, p) + Count(s, q) == |s|
  {
    if s != [] {
      CountComplement(s[1..], p, q);
    }
  }

  /** A stronger predicate never counts more. */
  lemma {:induction false} CountMonotone<T(!new)>(s: seq<T>, p: T -> bool, q: T -> bool)
    requires forall i :: 0 <= i < |s| ==> p(s[i]) ==> q(s[i])
    ensures Count(s, p) <= Count(s, q)
  {
    if s != [] {
      CountMonotone(s[1..], p, q);
    }
  }

  /** Filtering a scan of `keys` gives exactly the members of `keys` that satisfy `p`, once each. */
  lemma FilterScan(scan: seq<nat>, keys: set<nat>, p: nat -> bool)
    requires multiset(scan) == multiset(keys)
    ensures multiset(Filter(scan, p)) == multiset(set x | x in keys && p(x))
  {
    var r := Filter(scan, p);
    forall x ensures multiset(r)[x] == multiset(set y | y in keys && p(y))[x] {
    }
  }

  /** Counting over a scan of `keys` is the cardinality of the matching subset of `keys`. */
  lemma CountScan(scan: seq<nat>, keys: set<nat>, p: nat -> bool)
    requires multiset(scan) == multiset(keys)
    ensures Count(scan, p) == |set x | x in keys && p(x)|
  {
    FilterScan(scan, keys, p);
    var r := Filter(scan, p);
    calc {
      |r|;
      |multiset(r)|;
      |multiset(set x | x in keys && p(x))|;
      |set x | x in keys && p(x)|;
    }
  }
}
