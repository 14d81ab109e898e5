/** Python's ordering of strings, numbers and pairs, and sorting a finite set by such an order. */
module Ordering {

  /** `le` is a total order: reflexive, antisymmetric, transitive and total. */
  ghost predicate TotalOrder<T(!new)>(le: (T, T) -> bool) {
    && (forall a :: le(a, a))
    && (forall a, b :: le(a, b) && le(b, a) ==> a == b)
    && (forall a, b, c :: le(a, b) && le(b, c) ==> le(a, c))
    && (forall a, b :: le(a, b) || le(b, a))
  }

  /** Every element comes strictly before all later ones; so `s` has no duplicates. Stated
      element by element from the front, so that the verifier unfolds it one step at a time. */
  ghost predicate StrictlySorted<T>(s: seq<T>, le: (T, T) -> bool)
    decreases |s|
  {
    |s| <= 1 || ((forall j :: 0 < j < |s| ==> le(s[0], s[j]) && s[0] != s[j]) && StrictlySorted(s[1..], le))
  }

  /** A strictly sorted sequence is ordered pairwise. */
  lemma {:induction false} StrictlySortedPairs<T>(s: seq<T>, le: (T, T) -> bool)
    requires StrictlySorted(s, le)
    ensures forall i, j :: 0 <= i < j < |s| ==> le(s[i], s[j]) && s[i] != s[j]
    decreases |s|
  {
    if |s| > 1 {
      StrictlySortedPairs(s[1..], le);
      forall i, j | 0 <= i < j < |s|
        ensures le(s[i], s[j]) && s[i] != s[j]
      {
        if i > 0 {
          assert s[i] == s[1..][i - 1] && s[j] == s[1..][j - 1];
        }
      }
    }
  }

  /** Python's `<=` on `str`: lexicographic by code point, a proper prefix first. */
  predicate StrLe(a: string, b: string)
    decreases |a|
  {
    a == [] || (b != [] && (a[0] < b[0] || (a[0] == b[0] && StrLe(a[1..], b[1..]))))
  }

  /** Python's `<=` on a pair of strings: by the first component, then the second. */
  predicate PairLe(p: (string, string), q: (string, string)) {
    if p.0 == q.0 then StrLe(p.1, q.1) else StrLe(p.0, q.0)
  }

  predicate NatLe(a: nat, b: nat) {
    a <= b
  }

  lemma {:induction false} StrLeAntisymmetric(a: string, b: string)
    requires StrLe(a, b) && StrLe(b, a)
    ensures a == b
    decreases |a|
  {
    if a != [] && b != [] {
      StrLeAntisymmetric(a[1..], b[1..]);
      assert a == [a[0]] + a[1..] && b == [b[0]] + b[1..];
    }
  }

  lemma {:induction false} StrLeTransitive(a: string, b: string, c: string)
    requires StrLe(a, b) && StrLe(b, c)
    ensures StrLe(a, c)
    decreases |a|
  {
    if a != [] && b != [] && c != [] && a[0] == b[0] == c[0] {
      StrLeTransitive(a[1..], b[1..], c[1..]);
    }
  }

  lemma {:induction false} StrLeTotal(a: string, b: string)
    ensures StrLe(a, b) || StrLe(b, a)
    decreases |a|
  {
    if a != [] && b != [] && a[0] == b[0] {
      StrLeTotal(a[1..], b[1..]);
    }
  }

  lemma {:induction false} StrLeReflexive(a: string)
    ensures StrLe(a, a)
    decreases |a|
  {
    if a != [] {
      StrLeReflexive(a[1..]);
    }
  }

  lemma StrLeIsTotalOrder()
    ensures TotalOrder(StrLe)
  {
    forall a ensures StrLe(a, a) {
      StrLeReflexive(a);
    }
    forall a, b | StrLe(a, b) && StrLe(b, a) ensures a == b {
      StrLeAntisymmetric(a, b);
    }
    forall a, b, c | StrLe(a, b) && StrLe(b, c) ensures StrLe(a, c) {
      StrLeTransitive(a, b, c);
    }
    forall a, b ensures StrLe(a, b) || StrLe(b, a) {
      StrLeTotal(a, b);
    }
  }

  lemma PairLeIsTotalOrder()
    ensures TotalOrder(PairLe)
  {
    StrLeIsTotalOrder();
  }

  lemma NatLeIsTotalOrder()
    ensures TotalOrder(NatLe)
  {
  }

  /** A non-empty finite set has a least element under a total order. */
  lemma {:induction false} MinimumExists<T(!new)>(s: set<T>, le: (T, T) -> bool)
    requires TotalOrder(le) && s != {}
    ensures exists m :: m in s && forall x :: x in s ==> le(m, x)
    decreases |s|
  {
    var y :| y in s;
    if s == {y} {
      assert forall x :: x in s ==> x == y;
    } else {
      MinimumExists(s - {y}, le);
      var m :| m in s - {y} && forall x :: x in s - {y} ==> le(m, x);
      if le(m, y) {
        assert forall x :: x in s ==> le(m, x);
      } else {
        assert le(y, m);
        assert forall x :: x in s ==> le(y, x);
      }
    }
  }

  /** Python's `sorted(s)` for a set `s` whose elements are totally ordered by `le`. */
  function SortSet<T(!new)>(s: set<T>, le: (T, T) -> bool): (r: seq<T>)
    requires TotalOrder(le)
    ensures |r| == |s|
    ensures forall x :: x in r <==> x in s
    ensures StrictlySorted(r, le)
    decreases |s|
  {
    if s == {} then []
    else
      MinimumExists(s, le);
      var m :| m in s && forall x :: x in s ==> le(m, x);
      [m] + SortSet(s - {m}, le)
  }

  /** `sorted(keys)` for a set of strings: every key once, in ascending order. */
  function SortStrings(s: set<string>): (r: seq<string>)
    ensures |r| == |s|
    ensures forall x :: x in r <==> x in s
    ensures forall i, j :: 0 <= i < j < |r| ==> StrLe(r[i], r[j]) && r[i] != r[j]
    ensures StrictlySorted(r, StrLe)
  {
    StrLeIsTotalOrder();
    var r := SortSet(s, StrLe);
    StrictlySortedPairs(r, StrLe);
    r
  }

  /** `sorted(keys)` for a set of pairs of strings. */
  function SortPairs(s: set<(string, string)>): (r: seq<(string, string)>)
    ensures |r| == |s|
    ensures forall x :: x in r <==> x in s
    ensures forall i, j :: 0 <= i < j < |r| ==> PairLe(r[i], r[j]) && r[i] != r[j]
  {
    PairLeIsTotalOrder();
    var r := SortSet(s, PairLe);
    StrictlySortedPairs(r, PairLe);
    r
  }

  /** `sorted(keys)` for a set of identifiers. */
  function SortNats(s: set<nat>): (r: seq<nat>)
    ensures |r| == |s|
    ensures forall x :: x in r <==> x in s
    ensures forall i, j :: 0 <= i < j < |r| ==> r[i] < r[j]
  {
    NatLeIsTotalOrder();
    var r := SortSet(s, NatLe);
    StrictlySortedPairs(r, NatLe);
    r
  }
}
