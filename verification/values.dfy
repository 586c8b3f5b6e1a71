/**
  JavaScript values as the test page sees them, and the two primitive operations the rest of the
  test page is built from: strict equality (`===`) and the implicit string conversion (`"" + v`).

  Numbers are modelled as mathematical integers (the test page only ever handles integral numbers).
  Objects -- arrays, `String` objects and any other object or function -- carry a reference, because
  `===` compares objects by identity and never looks inside them.
*/
module Values {

  datatype Option<+T> = None | Some(value: T)

  datatype Value =
    | Num(n: int)
    | Str(s: string)                    // a primitive string, `typeof v == 'string'`
    | Bool(b: bool)
    | Null
    | Undefined
    | StrObj(ref: nat, s: string)       // a `String` object, `v instanceof String`
    | Arr(ref: nat, elems: seq<Value>)  // an `Array`
    | Obj(ref: nat, text: string)       // any other object; `text` is what its `toString` yields

  /** Objects are the values compared by reference. */
  predicate IsObject(v: Value) {
    v.StrObj? || v.Arr? || v.Obj?
  }

  /** The values `!!value` rejects: 0, the empty string, false, null and undefined. */
  predicate Falsy(v: Value) {
    v == Num(0) || v == Str("") || v == Bool(false) || v.Null? || v.Undefined?
  }

  /** `!!value && value.constructor === Array`: falsy values are never arrays, and neither is a
      `String` object or any other non-array object. */
  function IsArray(v: Value): (r: bool)
    ensures Falsy(v) ==> !r
    ensures v.StrObj? || v.Obj? ==> !r
    ensures r ==> IsObject(v) && !Falsy(v)
    ensures v.Arr? ==> r
  {
    v.Arr?
  }

  /** JavaScript `===`: same type and same value for primitives, same reference for objects. It
      never converts one side to the other's type. */
  function StrictEq(a: Value, b: Value): (r: bool)
    ensures !IsObject(a) ==> (r <==> a == b)
    ensures r ==> IsObject(a) == IsObject(b)
    ensures IsObject(a) && IsObject(b) && a.ref != b.ref ==> !r
    ensures a == b ==> r
  {
    match (a, b)
    case (Num(x), Num(y)) => x == y
    case (Str(x), Str(y)) => x == y
    case (Bool(x), Bool(y)) => x == y
    case (Null, Null) => true
    case (Undefined, Undefined) => true
    case (StrObj(r, _), StrObj(q, _)) => r == q
    case (Arr(r, _), Arr(q, _)) => r == q
    case (Obj(r, _), Obj(q, _)) => r == q
    case _ => false
  }

  /** Two values agree on the heap: if both are objects with one reference, they are one object. */
  predicate Coherent(a: Value, b: Value) {
    IsObject(a) && IsObject(b) && a.ref == b.ref ==> a == b
  }

  /** `===` never coerces: on a coherent heap it is exactly equality of the modelled values
      (primitives are always coherent, so for them this holds unconditionally). */
  lemma StrictEqIsIdentity(a: Value, b: Value)
    requires Coherent(a, b)
    ensures StrictEq(a, b) <==> a == b
  {
  }

  /** A number and its decimal text never compare equal, nor do `null` and `undefined`. */
  lemma NoCoercion(n: int)
    ensures !StrictEq(Num(n), Str(IntToString(n)))
    ensures !StrictEq(Null, Undefined)
    ensures !StrictEq(Bool(true), Num(1)) && !StrictEq(Bool(false), Num(0))
  {
  }

  function DigitChar(d: int): char
    requires 0 <= d < 10
  {
    "0123456789"[d]
  }

  function DigitValue(c: char): int {
    c as int - '0' as int
  }

  predicate IsDigit(c: char) {
    '0' <= c <= '9'
  }

  /** Decimal text of a natural number, most significant digit first, without leading zeros. */
  function NatToString(n: nat): (r: string)
    ensures |r| >= 1
    ensures forall i :: 0 <= i < |r| ==> IsDigit(r[i])
    ensures r[0] == '0' ==> n == 0
  {
    if n < 10 then [DigitChar(n)] else NatToString(n / 10) + [DigitChar(n % 10)]
  }

  /** `"" + n` for an integral number. */
  function IntToString(n: int): string {
    if n < 0 then "-" + NatToString(-n) else NatToString(n)
  }

  /** Reads decimal digits back; the partner of `NatToString`. */
  function ParseNat(s: string): int {
    if |s| == 0 then 0 else ParseNat(s[..|s| - 1]) * 10 + DigitValue(s[|s| - 1])
  }

  function ParseInt(s: string): int {
    if |s| > 0 && s[0] == '-' then -ParseNat(s[1..]) else ParseNat(s)
  }

  lemma {:induction false} NatToStringRoundTrip(n: nat)
    ensures ParseNat(NatToString(n)) == n
  {
    if n >= 10 {
      var s := NatToString(n);
      assert s[..|s| - 1] == NatToString(n / 10);
      NatToStringRoundTrip(n / 10);
    }
  }

  /** The decimal text of a number determines the number. */
  lemma {:induction false} IntToStringRoundTrip(n: int)
    ensures ParseInt(IntToString(n)) == n
  {
    var s := IntToString(n);
    if n < 0 {
      var d := NatToString(-n);
      assert s == "-" + d;
      assert s[0] == '-' && s[1..] == d;
      NatToStringRoundTrip(-n);
    } else {
      assert IsDigit(s[0]);
      NatToStringRoundTrip(n);
    }
  }

  /** JavaScript's implicit string conversion `"" + v`. An array converts through
      `Array.prototype.join(",")`, in which `null` and `undefined` elements become empty text. */
  function ToStr(v: Value): (r: string)
    ensures v.Num? ==> ParseInt(r) == v.n
    ensures v.Str? || v.StrObj? ==> r == v.s
    ensures v.Null? ==> r == "null"
    ensures v.Arr? && |v.elems| == 0 ==> r == ""
    ensures v.Arr? && |v.elems| > 0 ==> |r| >= |v.elems| - 1
    decreases v, if v.Arr? then |v.elems| + 2 else 1
  {
    match v
    case Num(n) => IntToStringRoundTrip(n); IntToString(n)
    case Str(s) => s
    case Bool(b) => if b then "true" else "false"
    case Null => "null"
    case Undefined => "undefined"
    case StrObj(_, s) => s
    case Arr(_, elems) => JoinFrom(v, 0)
    case Obj(_, t) => t
  }

  /** What `join` writes for one element: empty text for `null` and `undefined`. */
  function JoinText(e: Value): string
    decreases e, if e.Arr? then |e.elems| + 3 else 2
  {
    if e.Null? || e.Undefined? then "" else ToStr(e)
  }

  /** The comma-joined conversion of the elements `i..` of array `a`, as `join` produces it: one
      comma between each pair of neighbours. */
  function JoinFrom(a: Value, i: nat): (r: string)
    requires a.Arr? && i <= |a.elems|
    ensures i == |a.elems| ==> r == ""
    ensures i < |a.elems| ==> |r| >= |a.elems| - i - 1
    decreases a, |a.elems| - i
  {
    if i == |a.elems| then ""
    else
      var t := JoinText(a.elems[i]);
      if i + 1 == |a.elems| then t else t + "," + JoinFrom(a, i + 1)
  }

  /** The texts `join` writes for the elements of `a`, in order. */
  function JoinTexts(a: Value): seq<string>
    requires a.Arr?
  {
    seq(|a.elems|, k requires 0 <= k < |a.elems| => JoinText(a.elems[k]))
  }

  /** Joins `parts` with `sep` between neighbours. */
  function Join(sep: string, parts: seq<string>): string {
    if |parts| == 0 then "" else if |parts| == 1 then parts[0] else parts[0] + sep + Join(sep, parts[1..])
  }

  function SumLengths(parts: seq<string>): nat {
    if |parts| == 0 then 0 else |parts[0]| + SumLengths(parts[1..])
  }

  /** Converting an array to text joins its element texts with commas, from any element on. */
  lemma {:induction false} JoinFromIsJoin(a: Value, i: nat)
    requires a.Arr? && i <= |a.elems|
    ensures JoinFrom(a, i) == Join(",", JoinTexts(a)[i..])
    decreases |a.elems| - i
  {
    var p := JoinTexts(a)[i..];
    if i < |a.elems| && i + 1 < |a.elems| {
      JoinFromIsJoin(a, i + 1);
      assert p[1..] == JoinTexts(a)[i + 1..];
    }
  }

  /** `"" + array` is the `","`-join of its element texts. */
  lemma ArrayTextIsJoin(a: Value)
    requires a.Arr?
    ensures ToStr(a) == Join(",", JoinTexts(a))
  {
    JoinFromIsJoin(a, 0);
    assert JoinTexts(a)[0..] == JoinTexts(a);
  }

  /** A join of n parts holds exactly n - 1 separators besides the parts themselves. */
  lemma {:induction false} JoinLength(sep: string, parts: seq<string>)
    requires |parts| >= 1
    ensures |Join(sep, parts)| == SumLengths(parts) + (|parts| - 1) * |sep|
  {
    if |parts| > 1 {
      JoinLength(sep, parts[1..]);
    }
  }
}
