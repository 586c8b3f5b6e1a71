/**
  The value formatter: `formatString`, `arrayToString` and `valToString` render a value as the
  display text used in the test page's pass/fail lines.

  `arrayToString` is reproduced with its quirks: element 0 is appended raw (`"" + v`, so a nested
  array there collapses to its comma-joined contents and a string there is not quoted), and later
  elements recurse when they are arrays and are quoted only when they are `String` objects.
*/
module Formatter {
  import opened Values

  /** The three characters `formatString` escapes. */
  predicate IsSpecial(c: char) {
    c == '\n' || c == '\r' || c == '\t'
  }

  function EscapeChar(c: char): string {
    if c == '\n' then "\\n" else if c == '\r' then "\\r" else if c == '\t' then "\\t" else [c]
  }

  /** The body of a formatted string: every character escaped on its own. */
  function Escaped(s: string): string {
    if |s| == 0 then "" else EscapeChar(s[0]) + Escaped(s[1..])
  }

  function SpecialCount(s: string): nat {
    if |s| == 0 then 0 else (if IsSpecial(s[0]) then 1 else 0) + SpecialCount(s[1..])
  }

  /** A string rendered in double quotes with its special characters escaped. */
  function Quoted(s: string): string {
    "\"" + Escaped(s) + "\""
  }

  lemma {:induction false} EscapedAppend(a: string, b: string)
    ensures Escaped(a + b) == Escaped(a) + Escaped(b)
  {
    if |a| > 0 {
      assert (a + b)[1..] == a[1..] + b;
      EscapedAppend(a[1..], b);
    } else {
      assert a + b == b;
    }
  }

  lemma {:induction false} EscapedLength(s: string)
    ensures |Escaped(s)| == |s| + SpecialCount(s)
  {
    if |s| > 0 {
      EscapedLength(s[1..]);
    }
  }

  /** A formatted string is two quotes longer than its text, plus one for every escape. */
  lemma QuotedLength(s: string)
    ensures |Quoted(s)| == |s| + 2 + SpecialCount(s)
  {
    EscapedLength(s);
  }

  /** `formatString`: walks the string once, appending each character or its escape. */
  method FormatString(str: string) returns (r: string)
    ensures r == Quoted(str)
  {
    r := "\"";
    var i := 0;
    while i < |str|
      invariant 0 <= i <= |str|
      invariant r == "\"" + Escaped(str[..i])
    {
      var c := str[i];
      if c == '\n' {
        r := r + "\\n";
      } else if c == '\r' {
        r := r + "\\r";
      } else if c == '\t' {
        r := r + "\\t";
      } else {
        r := r + [c];
      }
      assert Escaped([c]) == EscapeChar(c);
      EscapedAppend(str[..i], [c]);
      assert str[..i + 1] == str[..i] + [c];
      i := i + 1;
    }
    assert str[..i] == str;
    r := r + "\"";
  }

  /** Reads escapes back: a backslash followed by `n`, `r` or `t` becomes that control character,
      every other character stands for itself. */
  function Unescape(t: string): string {
    if |t| == 0 then ""
    else if |t| >= 2 && t[0] == '\\' && t[1] == 'n' then "\n" + Unescape(t[2..])
    else if |t| >= 2 && t[0] == '\\' && t[1] == 'r' then "\r" + Unescape(t[2..])
    else if |t| >= 2 && t[0] == '\\' && t[1] == 't' then "\t" + Unescape(t[2..])
    else [t[0]] + Unescape(t[1..])
  }

  predicate NoBackslash(s: string) {
    forall i :: 0 <= i < |s| ==> s[i] != '\\'
  }

  /** Strips the quotes of a formatted string and reads its escapes back. */
  function Unquote(t: string): Option<string> {
    if |t| >= 2 && t[0] == '"' && t[|t| - 1] == '"' then Some(Unescape(t[1..|t| - 1])) else None
  }

  lemma {:induction false} UnescapeEscaped(s: string)
    requires NoBackslash(s)
    ensures Unescape(Escaped(s)) == s
  {
    if |s| > 0 {
      var rest := Escaped(s[1..]);
      UnescapeEscaped(s[1..]);
      var t := EscapeChar(s[0]) + rest;
      if IsSpecial(s[0]) {
        assert t[2..] == rest;
      } else {
        assert t[1..] == rest;
      }
    }
  }

  /** For text without backslashes, the formatted string reads back to the original: the quotes
      are the only additions, and the escapes are the only changes. */
  lemma QuotedRoundTrip(s: string)
    requires NoBackslash(s)
    ensures Unquote(Quoted(s)) == Some(s)
  {
    var t := Quoted(s);
    assert t[1..|t| - 1] == Escaped(s);
    UnescapeEscaped(s);
  }

  /** Backslashes are not escaped, so a backslash followed by `n` and a real newline render alike. */
  lemma QuotedNotInjective()
    ensures Quoted("\\n") == Quoted("\n") && "\\n" != "\n"
  {
  }

  /** How `arrayToString` renders elements 1 onward: arrays bracketed by the recursive call,
      `String` objects quoted, anything else -- primitive strings included -- converted raw. */
  function ElemText(v: Value): (r: string)
    ensures v.Arr? ==> |r| >= 2 && r[0] == '[' && r[|r| - 1] == ']'
    ensures v.StrObj? ==> r == Quoted(v.s)
    ensures !v.Arr? && !v.StrObj? ==> r == ToStr(v)
    decreases v, if v.Arr? then |v.elems| + 3 else 0
  {
    if IsArray(v) then ArrayToString(v)
    else if v.StrObj? then Quoted(v.s)
    else ToStr(v)
  }

  /** `arrayToString`: always bracketed, and the empty array is exactly `[]`. */
  function ArrayToString(a: Value): (r: string)
    requires a.Arr?
    ensures |r| >= 2 && r[0] == '[' && r[|r| - 1] == ']'
    ensures |a.elems| == 0 ==> r == "[]"
    decreases a, |a.elems| + 2
  {
    "[" + (if |a.elems| == 0 then "" else ToStr(a.elems[0]) + RestText(a, 1)) + "]"
  }

  /** The `", "`-prefixed texts of elements `i..` of `a`. */
  function RestText(a: Value, i: nat): string
    requires a.Arr? && 1 <= i <= |a.elems|
    decreases a, |a.elems| - i
  {
    if i == |a.elems| then "" else ", " + ElemText(a.elems[i]) + RestText(a, i + 1)
  }

  /** The text of each element in the position `arrayToString` puts it: element 0 converted raw,
      every later one as `ElemText` renders it. */
  function Parts(a: Value): seq<string>
    requires a.Arr?
  {
    seq(|a.elems|, i requires 0 <= i < |a.elems| => if i == 0 then ToStr(a.elems[0]) else ElemText(a.elems[i]))
  }

  lemma {:induction false} RestTextJoins(a: Value, i: nat)
    requires a.Arr? && 1 <= i <= |a.elems|
    ensures Join(", ", Parts(a)[i - 1..]) == Parts(a)[i - 1] + RestText(a, i)
    decreases |a.elems| - i
  {
    var p := Parts(a);
    if i < |a.elems| {
      RestTextJoins(a, i + 1);
      assert p[i - 1..][1..] == p[i..];
    }
  }

  /** A non-empty array renders as `[`, its element texts joined by `", "`, and `]`; the empty
      array renders as `[]`. */
  lemma ArrayLayout(a: Value)
    requires a.Arr?
    ensures |a.elems| == 0 ==> ArrayToString(a) == "[]"
    ensures |a.elems| > 0 ==> ArrayToString(a) == "[" + Join(", ", Parts(a)) + "]"
  {
    if |a.elems| > 0 {
      RestTextJoins(a, 1);
      assert Parts(a)[0..] == Parts(a);
    }
  }

  /** The rendered length: two brackets, the element texts and exactly |a| - 1 separators. */
  lemma ArrayLength(a: Value)
    requires a.Arr? && |a.elems| > 0
    ensures |ArrayToString(a)| == 2 + SumLengths(Parts(a)) + 2 * (|a.elems| - 1)
  {
    ArrayLayout(a);
    JoinLength(", ", Parts(a));
  }

  /** `valToString`: arrays through `arrayToString`, primitive strings and `String` objects through
      `formatString`, everything else through `"" + v`. */
  function ValToString(v: Value): (r: string)
    ensures IsArray(v) ==> |r| >= 2 && r[0] == '[' && r[|r| - 1] == ']'
    ensures (v.Str? || v.StrObj?) ==> |r| == |v.s| + 2 + SpecialCount(v.s) && r[0] == '"' && r[|r| - 1] == '"'
    ensures (v.Str? || v.StrObj?) && NoBackslash(v.s) ==> Unquote(r) == Some(v.s)
    ensures !IsArray(v) && !v.Str? && !v.StrObj? ==> r == ToStr(v)
  {
    if IsArray(v) then ArrayToString(v)
    else if v.Str? || v.StrObj? then
      EscapedLength(v.s);
      if NoBackslash(v.s) then QuotedRoundTrip(v.s); Quoted(v.s) else Quoted(v.s)
    else ToStr(v)
  }

  /** The renderings the test suites' output relies on. */
  lemma Examples()
    ensures ValToString(Num(3)) == "3"
    ensures ValToString(Num(-1)) == "-1"
    ensures ValToString(Str("a\nb")) == "\"a\\nb\""
    ensures ValToString(Arr(0, [Num(1), Num(2)])) == "[1, 2]"
    ensures ValToString(Arr(0, [])) == "[]"
  {
  }

  /** Primitive strings are never quoted inside an array, in front or after it. */
  lemma ArrayLeavesStringsUnquoted()
    ensures ValToString(Arr(0, [Str("a"), Str("b")])) == "[a, b]"
  {
  }

  /** A nested array in front collapses to its `join` text; later ones recurse. */
  lemma ArrayCollapsesFrontArray()
    ensures ValToString(Arr(0, [Arr(1, [Num(1), Num(2)]), Arr(2, [Num(3)])])) == "[1,2, [3]]"
  {
  }

  /** A `String` object is quoted only after the front. */
  lemma ArrayQuotesLaterStringObjects()
    ensures ValToString(Arr(0, [StrObj(1, "x"), StrObj(2, "y")])) == "[x, \"y\"]"
  {
  }

  /** `null` prints as `null` directly in the array but vanishes inside a collapsed nested array,
      so an array holding `[null]` renders like the empty array. */
  lemma ArrayNullRendering()
    ensures ValToString(Arr(0, [Null, Null])) == "[null, null]"
    ensures ValToString(Arr(0, [Arr(1, [Null])])) == ValToString(Arr(2, []))
  {
  }
}
