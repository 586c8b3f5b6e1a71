/**
  The structural comparator: `testArrayEquality` compares two arrays by length and then element by
  element with `!==`. The comparison is shallow: elements that are themselves arrays (or any other
  object) are compared by reference, never by contents.
*/
module Comparator {
  import opened Values

  /** The property `testArrayEquality` decides: equal lengths and `===` at every index. */
  predicate ShallowEqual(first: seq<Value>, second: seq<Value>) {
    |first| == |second| && forall i :: 0 <= i < |first| ==> StrictEq(first[i], second[i])
  }

  /** `testArrayEquality`: an early `false` on a length mismatch, then one pass over the indices
      returning `false` at the first element pair that is not strictly equal. */
  method TestArrayEquality(first: seq<Value>, second: seq<Value>) returns (r: bool)
    ensures r <==> ShallowEqual(first, second)
    ensures |first| != |second| ==> !r
  {
    if |first| != |second| {
      return false;
    }
    var i := 0;
    while i < |first|
      invariant 0 <= i <= |first|
      invariant forall j :: 0 <= j < i ==> StrictEq(first[j], second[j])
    {
      if !StrictEq(first[i], second[i]) {
        return false;
      }
      i := i + 1;
    }
    return true;
  }

  /** Deep equality by contents, ignoring references: what a reader of the test output would
      call "the same array". */
  predicate SameContents(a: Value, b: Value)
    decreases a
  {
    match (a, b)
    case (Arr(_, xs), Arr(_, ys)) =>
      |xs| == |ys| && forall i :: 0 <= i < |xs| ==> SameContents(xs[i], ys[i])
    case (StrObj(_, x), StrObj(_, y)) => x == y
    case (Obj(_, x), Obj(_, y)) => x == y
    case _ => StrictEq(a, b)
  }

  /** On arrays of primitives the shallow comparison is already a comparison by contents. */
  lemma ShallowEqualOnPrimitives(first: seq<Value>, second: seq<Value>)
    requires forall i :: 0 <= i < |first| ==> !IsObject(first[i])
    ensures ShallowEqual(first, second) <==>
      |first| == |second| && forall i :: 0 <= i < |first| ==> SameContents(first[i], second[i])
  {
    if |first| == |second| {
      forall i | 0 <= i < |first|
        ensures StrictEq(first[i], second[i]) <==> SameContents(first[i], second[i])
      {
        match first[i]
        case Num(_) =>
        case Str(_) =>
        case Bool(_) =>
        case Null =>
        case Undefined =>
      }
    }
  }

  /** Nested arrays compare by reference: wherever two arrays hold distinct array objects at the
      same index, they compare unequal, whatever those inner arrays contain. */
  lemma NestedArraysCompareByReference(e: seq<Value>, a: seq<Value>, i: int)
    requires 0 <= i < |e| == |a|
    requires e[i].Arr? && a[i].Arr? && e[i].ref != a[i].ref
    ensures !ShallowEqual(e, a)
  {
  }

  /** An instance: the two arrays have the same contents at every level and still differ. */
  lemma SameContentsYetUnequal()
    ensures var e := [Arr(1, [Num(1)])];
            var a := [Arr(2, [Num(1)])];
            SameContents(Arr(0, e), Arr(3, a)) && !ShallowEqual(e, a)
  {
    var e := [Arr(1, [Num(1)])];
    var a := [Arr(2, [Num(1)])];
    assert SameContents(e[0], a[0]);
  }
}
