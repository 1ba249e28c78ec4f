/** Values shared by every component: the optional value that stands for a Java
    reference that may be null, and the integer bounds of Java's `int`. */
module Common {

  /** A Java field or local that may hold `null`. */
  datatype Option<+T> = None | Some(value: T) {
    function GetOr(default: T): T {
      match this
      case Some(v) => v
      case None => default
    }
  }

  /** `Integer.MAX_VALUE`, used by the source as the "no column seen" sentinel. */
  const IntMax: int := 0x7fff_ffff

  function Min(a: int, b: int): int { if a <= b then a else b }

  function Max(a: int, b: int): int { if a >= b then a else b }

  /** The elements of `s` that satisfy `p`, in order: a Java stream `filter`
      collected to a list. `FilterMultiplicity` states that each kept
      element occurs as often as in `s`, `FilterConcat` the order. */
  function Filter<T(!new)>(s: seq<T>, p: T -> bool): (r: seq<T>)
    ensures |r| <= |s|
    ensures forall x :: x in r <==> x in s && p(x)
    ensures forall i :: 0 <= i < |r| ==> p(r[i])
  {
    if |s| == 0 then [] else (if p(s[0]) then [s[0]] else []) + Filter(s[1..], p)
  }

  /** An element that satisfies `p` is kept as many times as it occurs in
      `s`; any other element is dropped. */
  lemma {:induction false} FilterMultiplicity<T(!new)>(s: seq<T>, p: T -> bool)
    ensures forall x :: multiset(Filter(s, p))[x] == if p(x) then multiset(s)[x] else 0
  {
    if |s| > 0 {
      FilterMultiplicity(s[1..], p);
      assert s == [s[0]] + s[1..];
      var head := if p(s[0]) then [s[0]] else [];
      assert multiset(Filter(s, p)) == multiset(head) + multiset(Filter(s[1..], p));
      assert multiset(s) == multiset{s[0]} + multiset(s[1..]);
    }
  }

  /** Filtering a concatenation filters each part and keeps them in order. */
  lemma {:induction false} FilterConcat<T(!new)>(a: seq<T>, b: seq<T>, p: T -> bool)
    ensures Filter(a + b, p) == Filter(a, p) + Filter(b, p)
  {
    if |a| > 0 {
      var head := if p(a[0]) then [a[0]] else [];
      assert (a + b)[1..] == a[1..] + b;
      assert (a + b)[0] == a[0];
      assert Filter(a + b, p) == head + Filter(a[1..] + b, p);
      assert Filter(a, p) == head + Filter(a[1..], p);
      FilterConcat(a[1..], b, p);
    } else {
      assert a + b == b;
    }
  }

  function Abs(x: int): nat { if x < 0 then -x else x }

  /** `s[i]` is the one element of `s` that satisfies `p`. */
  predicate UniqueIndex<T>(s: seq<T>, p: T -> bool, i: int) {
    0 <= i < |s| && p(s[i]) && forall j :: 0 <= j < |s| && j != i ==> !p(s[j])
  }

  lemma {:induction false} FilterNone<T(!new)>(s: seq<T>, p: T -> bool)
    requires forall i :: 0 <= i < |s| ==> !p(s[i])
    ensures Filter(s, p) == []
  {
    if |s| > 0 {
      assert !p(s[0]);
      FilterNone(s[1..], p);
    }
  }

  /** A filter keeps exactly one element precisely when one position of the
      input satisfies the predicate, and then it keeps that element. */
  lemma {:induction false} FilterSingle<T(!new)>(s: seq<T>, p: T -> bool)
    ensures |Filter(s, p)| == 1 <==> exists i :: UniqueIndex(s, p, i)
    ensures forall i :: UniqueIndex(s, p, i) ==> Filter(s, p) == [s[i]]
  {
    if |s| > 0 {
      FilterSingle(s[1..], p);
      if p(s[0]) {
        if |Filter(s, p)| == 1 {
          assert Filter(s[1..], p) == [];
          forall j | 1 <= j < |s| ensures !p(s[j]) {
            assert s[j] == s[1..][j - 1];
          }
          assert UniqueIndex(s, p, 0);
        }
        forall i | UniqueIndex(s, p, i) ensures Filter(s, p) == [s[i]] {
          assert i == 0;
          forall j | 0 <= j < |s[1..]| ensures !p(s[1..][j]) {
            assert s[1..][j] == s[j + 1];
          }
          FilterNone(s[1..], p);
        }
      } else {
        assert Filter(s, p) == Filter(s[1..], p);
        forall i | UniqueIndex(s, p, i) ensures UniqueIndex(s[1..], p, i - 1) {
          forall j | 0 <= j < |s[1..]| && j != i - 1 ensures !p(s[1..][j]) {
            assert s[1..][j] == s[j + 1];
          }
        }
        forall i | UniqueIndex(s[1..], p, i) ensures UniqueIndex(s, p, i + 1) {
          forall j | 0 <= j < |s| && j != i + 1 ensures !p(s[j]) {
            if j > 0 { assert s[j] == s[1..][j - 1]; }
          }
        }
      }
    }
  }
}
