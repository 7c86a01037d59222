/** Lists without repetitions, and taking an element out of one. */
module Sequences {
  ghost predicate Distinct<T>(s: seq<T>) {
    forall i, j | 0 <= i < j < |s| :: s[i] != s[j]
  }

  /** The first place of an element, or the length of the list. */
  function Index<T(==)>(s: seq<T>, x: T): (k: nat)
    ensures k <= |s| && (x in s <==> k < |s|) && (k < |s| ==> s[k] == x)
    ensures forall j | 0 <= j < k :: s[j] != x
  {
    if s == [] || s[0] == x then 0 else 1 + Index(s[1..], x)
  }

  /** The list without the element at one place. */
  function Without<T>(s: seq<T>, k: nat): seq<T>
    requires k < |s|
  {
    s[..k] + s[k + 1..]
  }

  function Remove<T(==)>(s: seq<T>, x: T): seq<T> {
    if s == [] then [] else if s[0] == x then s[1..] else [s[0]] + Remove(s[1..], x)
  }

  lemma {:induction false} RemoveMembers<T>(s: seq<T>, x: T, y: T)
    requires Distinct(s)
    ensures y in Remove(s, x) <==> y in s && y != x
  {
    if s != [] {
      RemoveMembers(s[1..], x, y);
      assert s == [s[0]] + s[1..];
    }
  }

  lemma {:induction false} RemoveDistinct<T>(s: seq<T>, x: T)
    requires Distinct(s)
    ensures Distinct(Remove(s, x))
  {
    if s != [] {
      RemoveDistinct(s[1..], x);
      if s[0] != x {
        RemoveMembers(s[1..], x, s[0]);
        assert Remove(s, x) == [s[0]] + Remove(s[1..], x);
      }
    }
  }

  lemma {:induction false} RemoveAbsent<T>(s: seq<T>, x: T)
    requires x !in s
    ensures Remove(s, x) == s
  {
    if s != [] { RemoveAbsent(s[1..], x); }
  }

  lemma {:induction false} RemoveCat<T>(a: seq<T>, b: seq<T>, x: T)
    requires Distinct(a + b)
    ensures Remove(a, x) + Remove(b, x) == Remove(a + b, x)
  {
    if a == [] {
      assert a + b == b;
    } else {
      assert (a + b)[1..] == a[1..] + b;
      if a[0] == x {
        assert forall i | 0 <= i < |b| :: b[i] == (a + b)[|a| + i] && (a + b)[0] != (a + b)[|a| + i];
        RemoveAbsent(b, x);
      } else {
        RemoveCat(a[1..], b, x);
      }
    }
  }

  lemma {:induction false} RemoveOnly<T>(s: seq<T>, x: T, y: T)
    requires y in Remove(s, x)
    ensures y in s
  {
    if s[0] != x && s[0] != y { RemoveOnly(s[1..], x, y); }
  }

  lemma {:induction false} RemoveAt<T>(s: seq<T>, k: nat)
    requires Distinct(s) && k < |s|
    ensures Remove(s, s[k]) == Without(s, k)
  {
    if k > 0 {
      RemoveAt(s[1..], k - 1);
      assert [s[0]] + (s[1..][..k - 1] + s[1..][k..]) == s[..k] + s[k + 1..];
    }
  }

  lemma Regroup<T>(a: seq<T>, b: seq<T>, c: seq<T>)
    ensures (a + b) + c == a + (b + c)
  {}
}
