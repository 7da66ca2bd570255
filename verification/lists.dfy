/** Sequence operations that mirror `java.util.List` as the shop uses it. */
module Lists {

  /** No element occurs twice. */
  predicate NoDup<T(==)>(s: seq<T>) {
    forall i, j :: 0 <= i < j < |s| ==> s[i] != s[j]
  }

  /** The position of the first occurrence of `x` in `s`. */
  function FirstIndex<T(==)>(s: seq<T>, x: T): (i: nat)
    requires x in s
    ensures i < |s| && s[i] == x
    ensures x !in s[..i]
  {
    if s[0] == x then 0
    else
      assert x in s[1..];
      var k := FirstIndex(s[1..], x);
      assert s[..k + 1] == [s[0]] + s[1..][..k];
      k + 1
  }

  /** `List.remove(Object)`: drops the first occurrence of `x` and keeps the order of
      the rest; a list without `x` is returned unchanged. */
  function RemoveFirst<T(==)>(s: seq<T>, x: T): (r: seq<T>)
    ensures x !in s ==> r == s
    ensures multiset(r) == multiset(s) - multiset{x}
    ensures forall y :: y in r ==> y in s
  {
    if |s| == 0 then s
    else if s[0] == x then
      assert s == [s[0]] + s[1..];
      s[1..]
    else
      assert s == [s[0]] + s[1..];
      [s[0]] + RemoveFirst(s[1..], x)
  }

  /** Removing an element that occurs shortens the list by one. */
  lemma RemoveFirstLength<T>(s: seq<T>, x: T)
    requires x in s
    ensures |RemoveFirst(s, x)| == |s| - 1
  {
    assert |multiset(RemoveFirst(s, x))| == |multiset(s)| - 1;
  }

  /** `s` with the element at position `i` cut out; the rest keep their order. */
  function CutOut<T>(s: seq<T>, i: nat): seq<T>
    requires i < |s|
  {
    s[..i] + s[i + 1..]
  }

  /** When `x` occurs, `RemoveFirst` cuts exactly its first occurrence out of the list. */
  lemma RemoveFirstCutsFirstOccurrence<T>(s: seq<T>, x: T)
    requires x in s
    ensures RemoveFirst(s, x) == CutOut(s, FirstIndex(s, x))
  {
    var i := FirstIndex(s, x);
    assert i < |s| && s[i] == x && x !in s[..i];
    RemoveFirstCutsAt(s, x, i);
    assert CutOut(s, i) == s[..i] + s[i + 1..];
  }

  /** `RemoveFirstCutsFirstOccurrence`, for any `x`. */
  lemma RemoveFirstCuts<T>(s: seq<T>, x: T)
    ensures x in s ==> RemoveFirst(s, x) == CutOut(s, FirstIndex(s, x))
  {
    if x in s {
      RemoveFirstCutsFirstOccurrence(s, x);
    }
  }

  lemma {:induction false} RemoveFirstCutsAt<T>(s: seq<T>, x: T, i: nat)
    requires i < |s| && s[i] == x && x !in s[..i]
    ensures RemoveFirst(s, x) == s[..i] + s[i + 1..]
  {
    if i == 0 {
      assert s[..0] + s[1..] == s[1..];
    } else {
      var tail := s[1..];
      assert s[0] == s[..i][0];
      assert x !in tail[..i - 1] by {
        assert tail[..i - 1] == s[..i][1..];
      }
      RemoveFirstCutsAt(tail, x, i - 1);
      assert RemoveFirst(s, x) == [s[0]] + (tail[..i - 1] + tail[i..]);
      assert s[..i] == [s[0]] + tail[..i - 1];
      assert s[i + 1..] == tail[i..];
    }
  }

  /** The consecutive identities `lo`, `lo + 1`, ..., `lo + n - 1`. */
  function Range(lo: nat, n: nat): (r: seq<nat>)
    ensures |r| == n
    ensures forall x :: x in r <==> lo <= x < lo + n
    ensures NoDup(r)
    decreases n
  {
    if n == 0 then []
    else
      var rest := Range(lo + 1, n - 1);
      assert lo !in rest;
      NoDupAppend([lo], rest);
      [lo] + rest
  }

  /** Appending an element that was absent and then removing it gives back the list. */
  lemma {:induction false} AppendThenRemoveFirst<T>(s: seq<T>, x: T)
    requires x !in s
    ensures RemoveFirst(s + [x], x) == s
  {
    if |s| == 0 {
    } else {
      assert (s + [x])[1..] == s[1..] + [x];
      AppendThenRemoveFirst(s[1..], x);
      assert s == [s[0]] + s[1..];
    }
  }

  /** Removing from a duplicate-free list keeps it duplicate-free, and removes exactly `x`. */
  lemma {:induction false} RemoveFirstNoDup<T>(s: seq<T>, x: T)
    requires NoDup(s)
    ensures NoDup(RemoveFirst(s, x))
    ensures forall y :: y in RemoveFirst(s, x) <==> y in s && y != x
  {
    if |s| == 0 {
    } else {
      NoDupTail(s);
      assert s == [s[0]] + s[1..];
      if s[0] != x {
        RemoveFirstNoDup(s[1..], x);
        var t := RemoveFirst(s[1..], x);
        assert RemoveFirst(s, x) == [s[0]] + t;
        assert s[0] !in t;
        forall i, j | 0 <= i < j < |[s[0]] + t| ensures ([s[0]] + t)[i] != ([s[0]] + t)[j] {
          if i == 0 {
            assert ([s[0]] + t)[j] == t[j - 1];
          } else {
            assert ([s[0]] + t)[i] == t[i - 1] && ([s[0]] + t)[j] == t[j - 1];
          }
        }
      }
    }
  }

  /** The tail of a duplicate-free list is duplicate-free and does not contain the head. */
  lemma NoDupTail<T>(s: seq<T>)
    requires NoDup(s) && |s| > 0
    ensures NoDup(s[1..]) && s[0] !in s[1..]
  {
    forall i, j | 0 <= i < j < |s[1..]| ensures s[1..][i] != s[1..][j] {
      assert s[1..][i] == s[i + 1] && s[1..][j] == s[j + 1];
    }
    forall j | 0 <= j < |s[1..]| ensures s[1..][j] != s[0] {
      assert s[1..][j] == s[j + 1];
    }
  }

  /** Two duplicate-free lists with no element in common concatenate to a duplicate-free list. */
  lemma NoDupAppend<T>(a: seq<T>, b: seq<T>)
    requires NoDup(a) && NoDup(b)
    requires forall x :: x in a ==> x !in b
    ensures NoDup(a + b)
  {
    forall i, j | 0 <= i < j < |a + b| ensures (a + b)[i] != (a + b)[j] {
      if j < |a| {
      } else if i < |a| {
        assert (a + b)[i] in a && (a + b)[j] == b[j - |a|];
      } else {
        assert (a + b)[i] == b[i - |a|] && (a + b)[j] == b[j - |a|];
      }
    }
  }
}
