/** The `isOpposite` check of src/components/ShowScriptButton/lol.py: a
    recursive comparison of two sequences that peels the first element off
    `a` and the last element off `b` on every call. */
module Opposite {

  /** `isOpposite(a, b)` as written: the guard `a[0] == b[0]` also fires in
      the length-1 case, where `b[0]` and `b[-1]` are the same element, so no
      non-empty pair ever reaches `True`. */
  function IsOpposite<T(==)>(a: seq<T>, b: seq<T>): (r: bool)
    ensures |a| == 0 && |b| == 0 ==> r
    ensures |a| != |b| ==> !r
    ensures |a| > 0 && |b| > 0 && a[0] == b[0] ==> !r
    ensures |a| > 0 && |b| > 0 && a[0] != b[|b| - 1] ==> !r
    decreases |a|
  {
    if |a| == 0 && |b| == 0 then true
    else if |a| != |b| || a[0] == b[0] then false
    else if a[0] != b[|b| - 1] then false
    else IsOpposite(a[1..], b[..|b| - 1])
  }

  /** Every pair of length one is rejected: `b[0]` is also `b[-1]`, so the
      element of `a` either equals it (line 5) or differs from it (line 8). */
  lemma LengthOneRejected<T>(a: seq<T>, b: seq<T>)
    requires |a| == 1 && |b| == 1
    ensures !IsOpposite(a, b)
  {
    assert b[0] == b[|b| - 1];
  }

  /** The characterisation of the function as written: it holds exactly of
      two empty sequences. */
  lemma {:induction false} OppositeOnlyEmpty<T>(a: seq<T>, b: seq<T>)
    ensures IsOpposite(a, b) <==> a == [] && b == []
    decreases |a|
  {
    if |a| == 0 && |b| == 0 {
    } else if |a| != |b| || a[0] == b[0] || a[0] != b[|b| - 1] {
    } else if |a| == 1 {
      LengthOneRejected(a, b);
    } else {
      OppositeOnlyEmpty(a[1..], b[..|b| - 1]);
    }
  }

  /** The call printed by the script itself yields False, although the two
      lists are each other's reversal. */
  lemma ScriptExampleIsFalse()
    ensures !IsOpposite([1, 2, 3], [3, 2, 1])
  {
    OppositeOnlyEmpty([1, 2, 3], [3, 2, 1]);
  }

  /** `b` read back to front, as an independent reference for reversal. */
  function Reversed<T>(b: seq<T>): (r: seq<T>)
    ensures |r| == |b|
  {
    if b == [] then [] else [b[|b| - 1]] + Reversed(b[..|b| - 1])
  }

  lemma {:induction false} ReversedAt<T>(b: seq<T>, i: nat)
    requires i < |b|
    ensures Reversed(b)[i] == b[|b| - 1 - i]
    decreases |b|
  {
    if i > 0 {
      ReversedAt(b[..|b| - 1], i - 1);
    }
  }

  /** The check with the `a[0] == b[0]` guard removed: it compares `a[0]`
      with `b[-1]` and recurses on `a[1:]`, `b[:-1]`, as the name and the
      script's own example suggest was meant. */
  function IsReverseOf<T(==)>(a: seq<T>, b: seq<T>): (r: bool)
    ensures r ==> |a| == |b|
    decreases |a|
  {
    if |a| == 0 && |b| == 0 then true
    else if |a| != |b| then false
    else if a[0] != b[|b| - 1] then false
    else IsReverseOf(a[1..], b[..|b| - 1])
  }

  /** The corrected check holds exactly when `a` is `b` reversed. */
  lemma {:induction false} ReverseOfCorrect<T>(a: seq<T>, b: seq<T>)
    ensures IsReverseOf(a, b) <==> a == Reversed(b)
    decreases |a|
  {
    if |a| == 0 && |b| == 0 {
    } else if |a| != |b| {
    } else {
      ReverseOfCorrect(a[1..], b[..|b| - 1]);
      var rb := Reversed(b);
      assert rb == [b[|b| - 1]] + Reversed(b[..|b| - 1]);
      if a == rb {
        assert a[1..] == Reversed(b[..|b| - 1]);
      }
    }
  }

  /** The same, position by position: `a[i]` is `b[len(b) - 1 - i]`. */
  lemma ReverseOfIndexwise<T>(a: seq<T>, b: seq<T>)
    ensures IsReverseOf(a, b) <==>
      |a| == |b| && forall i :: 0 <= i < |a| ==> a[i] == b[|b| - 1 - i]
  {
    ReverseOfCorrect(a, b);
    forall i | 0 <= i < |b| {
      ReversedAt(b, i);
    }
    if |a| == |b| && forall i :: 0 <= i < |a| ==> a[i] == b[|b| - 1 - i] {
      assert a == Reversed(b);
    }
  }

  /** On the script's own example the corrected check answers True. */
  lemma ScriptExampleCorrected()
    ensures IsReverseOf([1, 2, 3], [3, 2, 1])
  {
    assert [1, 2, 3][1..] == [2, 3];
    assert [3, 2, 1][..2] == [3, 2];
    assert [2, 3][1..] == [3];
    assert [3, 2][..1] == [3];
  }
}
