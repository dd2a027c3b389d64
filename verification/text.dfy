/** String helpers with the exact semantics the Python and JavaScript code relies on:
    whitespace trimming, single-character split/join, substring search, decimal
    rendering of naturals, ASCII lower-casing and character replacement. */
module Text {

  /** The two whitespace sets the code trims with: JavaScript's `trim()` and Python's `strip()`. */
  datatype Spaces = JsSpaces | PySpaces

  predicate IsSpace(k: Spaces, c: char) {
    match k
    case JsSpaces => JsSpace(c)
    case PySpaces => PySpace(c)
  }

  /** Characters JavaScript's `String.prototype.trim` removes (WhiteSpace and LineTerminator). */
  predicate JsSpace(c: char) {
    c == ' ' || c == '\t' || c == '\n' || c == '\r' || c == '\U{000B}' || c == '\U{000C}'
    || c == '\U{00A0}' || c == '\U{1680}' || ('\U{2000}' <= c <= '\U{200A}')
    || c == '\U{2028}' || c == '\U{2029}' || c == '\U{202F}' || c == '\U{205F}'
    || c == '\U{3000}' || c == '\U{FEFF}'
  }

  /** Characters Python's `str.strip()` removes (`str.isspace`). */
  predicate PySpace(c: char) {
    c == ' ' || c == '\t' || c == '\n' || c == '\r' || c == '\U{000B}' || c == '\U{000C}'
    || ('\U{001C}' <= c <= '\U{001F}') || c == '\U{0085}' || c == '\U{00A0}' || c == '\U{1680}'
    || ('\U{2000}' <= c <= '\U{200A}') || c == '\U{2028}' || c == '\U{2029}'
    || c == '\U{202F}' || c == '\U{205F}' || c == '\U{3000}'
  }

  /** Index of the first character at or after `i` that is not in `sp` (or `|s|`). */
  function SkipSpaces(s: string, sp: Spaces, i: nat): (j: nat)
    requires i <= |s|
    ensures i <= j <= |s|
    ensures j < |s| ==> !IsSpace(sp, s[j])
    decreases |s| - i
  {
    if i < |s| && IsSpace(sp, s[i]) then SkipSpaces(s, sp, i + 1) else i
  }

  /** Index just past the last character before `j`, and not before `lo`, that is not in `sp`. */
  function BackSpaces(s: string, sp: Spaces, lo: nat, j: nat): (k: nat)
    requires lo <= j <= |s|
    ensures lo <= k <= j
    ensures k > lo ==> !IsSpace(sp, s[k - 1])
    decreases j
  {
    if j > lo && IsSpace(sp, s[j - 1]) then BackSpaces(s, sp, lo, j - 1) else j
  }

  /** Leading characters in the set `sp` removed. */
  function TrimStart(s: string, sp: Spaces): (r: string)
    ensures r == [] || !IsSpace(sp, r[0])
  {
    s[SkipSpaces(s, sp, 0)..]
  }

  /** Start and end of the part `Trim` keeps. */
  function TrimStartIndex(s: string, sp: Spaces): nat
    ensures TrimStartIndex(s, sp) <= |s|
  {
    SkipSpaces(s, sp, 0)
  }

  function TrimEndIndex(s: string, sp: Spaces): (e: nat)
    ensures TrimStartIndex(s, sp) <= e <= |s|
  {
    BackSpaces(s, sp, TrimStartIndex(s, sp), |s|)
  }

  /** Both ends trimmed: `trim()` with `JsSpaces`, `strip()` with `PySpaces`. */
  function Trim(s: string, sp: Spaces): (r: string)
    ensures r == [] || (!IsSpace(sp, r[0]) && !IsSpace(sp, r[|r| - 1]))
  {
    s[TrimStartIndex(s, sp)..TrimEndIndex(s, sp)]
  }

  /** Everything `SkipSpaces` passes over is whitespace. */
  lemma {:induction false} SkipSpacesPassesSpaces(s: string, sp: Spaces, i: nat)
    requires i <= |s|
    ensures forall k :: i <= k < SkipSpaces(s, sp, i) ==> IsSpace(sp, s[k])
    decreases |s| - i
  {
    if i < |s| && IsSpace(sp, s[i]) {
      SkipSpacesPassesSpaces(s, sp, i + 1);
    }
  }

  /** Everything `BackSpaces` passes over is whitespace. */
  lemma {:induction false} BackSpacesPassesSpaces(s: string, sp: Spaces, lo: nat, j: nat)
    requires lo <= j <= |s|
    ensures forall k :: BackSpaces(s, sp, lo, j) <= k < j ==> IsSpace(sp, s[k])
    decreases j
  {
    if j > lo && IsSpace(sp, s[j - 1]) {
      BackSpacesPassesSpaces(s, sp, lo, j - 1);
    }
  }

  /** Exactly the whitespace at either end is removed: what is cut off is whitespace. */
  lemma TrimRemovesOnlySpace(s: string, sp: Spaces)
    ensures forall k :: 0 <= k < TrimStartIndex(s, sp) ==> IsSpace(sp, s[k])
    ensures forall k :: TrimEndIndex(s, sp) <= k < |s| ==> IsSpace(sp, s[k])
  {
    SkipSpacesPassesSpaces(s, sp, 0);
    BackSpacesPassesSpaces(s, sp, TrimStartIndex(s, sp), |s|);
  }

  /** A string without surrounding whitespace trims to itself. */
  lemma TrimNoop(s: string, sp: Spaces)
    requires s == [] || (!IsSpace(sp, s[0]) && !IsSpace(sp, s[|s| - 1]))
    ensures Trim(s, sp) == s
  {
    assert s[0..|s|] == s;
  }

  /** A string made only of whitespace trims to the empty string. */
  lemma TrimAllSpace(s: string, sp: Spaces)
    requires forall i :: 0 <= i < |s| ==> IsSpace(sp, s[i])
    ensures Trim(s, sp) == []
  {
  }

  predicate StartsWith(s: string, p: string) {
    |p| <= |s| && s[..|p|] == p
  }

  predicate EndsWith(s: string, p: string) {
    |p| <= |s| && s[|s| - |p|..] == p
  }

  lemma StartsWithConcat(p: string, s: string)
    ensures StartsWith(p + s, p)
  {
    assert (p + s)[..|p|] == p;
  }

  /** A prefix of `a` is a prefix of anything `a` starts. */
  lemma StartsWithExtend(a: string, b: string, p: string)
    requires StartsWith(a, p)
    ensures StartsWith(a + b, p)
  {
    assert (a + b)[..|p|] == a[..|p|];
  }

  /** A suffix of `b` is a suffix of anything `b` ends. */
  lemma EndsWithExtend(a: string, b: string, p: string)
    requires EndsWith(b, p)
    ensures EndsWith(a + b, p)
  {
    assert (a + b)[|a + b| - |p|..] == b[|b| - |p|..];
  }

  /** A prefix of a prefix is a prefix. */
  lemma StartsWithShorter(s: string, p: string, q: string)
    requires StartsWith(s, p) && StartsWith(p, q)
    ensures StartsWith(s, q)
  {
    assert s[..|q|] == s[..|p|][..|q|];
  }

  /** A suffix of a suffix is a suffix. */
  lemma EndsWithShorter(s: string, p: string, q: string)
    requires EndsWith(s, p) && EndsWith(p, q)
    ensures EndsWith(s, q)
  {
    assert s[|s| - |q|..] == s[|s| - |p|..][|p| - |q|..];
  }

  lemma EndsWithConcat(s: string, p: string)
    ensures EndsWith(s + p, p)
  {
    assert (s + p)[|s|..] == p;
  }

  /** Concatenation regroups freely. */
  lemma Associative(x: string, y: string, z: string)
    ensures (x + y) + z == x + (y + z)
  {
  }

  /** Markup opened by `p + q` and closed by `x + c` starts with both openings and ends with
      both closings, whatever sits between. */
  lemma Framed(p: string, q: string, m: string, x: string, c: string)
    ensures StartsWith(p + q + (m + (x + c)), p) && StartsWith(p + q + (m + (x + c)), p + q)
    ensures EndsWith(p + q + (m + (x + c)), x + c) && EndsWith(p + q + (m + (x + c)), c)
  {
    var r := p + q + (m + (x + c));
    StartsWithConcat(p + q, m + (x + c));
    StartsWithConcat(p, q);
    StartsWithShorter(r, p + q, p);
    EndsWithConcat(m, x + c);
    EndsWithExtend(p + q, m + (x + c), x + c);
    EndsWithConcat(x, c);
    EndsWithShorter(r, x + c, c);
  }

  /** Substring test: Python `p in s`, JavaScript `s.includes(p)`. */
  predicate Contains(s: string, p: string)
    decreases |s|
  {
    StartsWith(s, p) || (|s| > 0 && Contains(s[1..], p))
  }

  /** Position of the first `c` in `s`, or `|s|` when there is none. */
  function IndexOf(s: string, c: char): (i: nat)
    ensures i <= |s|
    ensures i < |s| ==> s[i] == c
  {
    if |s| == 0 then 0
    else if s[0] == c then 0
    else 1 + IndexOf(s[1..], c)
  }

  /** No `c` comes before the position `IndexOf` reports. */
  lemma {:induction false} IndexOfFirst(s: string, c: char)
    ensures forall j :: 0 <= j < IndexOf(s, c) ==> s[j] != c
    decreases |s|
  {
    if |s| > 0 && s[0] != c {
      IndexOfFirst(s[1..], c);
      assert forall j :: 1 <= j < |s| ==> s[j] == s[1..][j - 1];
    }
  }

  /** Python `s.split(c)` / JavaScript `s.split(c)` for a one-character separator. */
  function Split(s: string, c: char): (r: seq<string>)
    ensures |r| >= 1
    decreases |s|
  {
    var i := IndexOf(s, c);
    if i == |s| then [s] else [s[..i]] + Split(s[i + 1..], c)
  }

  /** No piece of a split contains the separator. */
  lemma {:induction false} SplitPiecesLackSeparator(s: string, c: char)
    ensures forall k :: 0 <= k < |Split(s, c)| ==> c !in Split(s, c)[k]
    decreases |s|
  {
    var i := IndexOf(s, c);
    IndexOfFirst(s, c);
    if i < |s| {
      SplitPiecesLackSeparator(s[i + 1..], c);
    }
  }

  /** Python `sep.join(parts)` / JavaScript `parts.join(sep)`. */
  function Join(parts: seq<string>, sep: string): (r: string)
  {
    if |parts| == 0 then ""
    else if |parts| == 1 then parts[0]
    else parts[0] + sep + Join(parts[1..], sep)
  }

  /** Concatenation of all parts (`''.join(parts)`). */
  function Concat(parts: seq<string>): string {
    if |parts| == 0 then "" else parts[0] + Concat(parts[1..])
  }

  /** Joining the pieces of a split with the separator gives back the original string. */
  lemma {:induction false} JoinSplit(s: string, c: char)
    ensures Join(Split(s, c), [c]) == s
    decreases |s|
  {
    var i := IndexOf(s, c);
    if i < |s| {
      var rest := Split(s[i + 1..], c);
      JoinSplit(s[i + 1..], c);
      assert Split(s, c) == [s[..i]] + rest;
      assert s == s[..i] + [c] + s[i + 1..];
    }
  }

  /** Splitting a join of comma-free pieces gives back the pieces. */
  lemma {:induction false} SplitJoin(parts: seq<string>, c: char)
    requires |parts| >= 1
    requires forall k :: 0 <= k < |parts| ==> c !in parts[k]
    ensures Split(Join(parts, [c]), c) == parts
    decreases |parts|
  {
    if |parts| == 1 {
      assert IndexOf(parts[0], c) == |parts[0]|;
    } else {
      var tail := Join(parts[1..], [c]);
      var s := parts[0] + [c] + tail;
      assert Join(parts, [c]) == s;
      IndexOfPrefix(parts[0], c, tail);
      assert s[..|parts[0]|] == parts[0];
      assert s[|parts[0]| + 1..] == tail;
      SplitJoin(parts[1..], c);
    }
  }

  lemma IndexOfPrefix(a: string, c: char, b: string)
    requires c !in a
    ensures IndexOf(a + [c] + b, c) == |a|
  {
    var s := a + [c] + b;
    IndexOfFirst(s, c);
    assert forall j :: 0 <= j < |a| ==> s[j] == a[j];
    assert s[|a|] == c;
  }

  predicate IsDigit(c: char) {
    '0' <= c <= '9'
  }

  function DigitChar(d: nat): (c: char)
    requires d < 10
    ensures IsDigit(c) && DigitValue(c) == d
  {
    ('0' as int + d) as char
  }

  function DigitValue(c: char): (d: nat)
    requires IsDigit(c)
    ensures d < 10
  {
    c as int - '0' as int
  }

  /** Python `str(n)` / JavaScript `String(n)` for a natural number. */
  function NatToString(n: nat): (r: string)
    ensures |r| >= 1
    ensures forall i :: 0 <= i < |r| ==> IsDigit(r[i])
    ensures r[0] == '0' ==> n == 0 && r == "0"
    decreases n
  {
    if n < 10 then [DigitChar(n)] else NatToString(n / 10) + [DigitChar(n % 10)]
  }

  /** `String(i)` for an integer: a minus sign before the magnitude. */
  function IntToString(i: int): string {
    if i < 0 then "-" + NatToString(-i) else NatToString(i)
  }

  /** Value of a non-empty string of decimal digits. */
  function DigitsValue(s: string): nat
    requires forall i :: 0 <= i < |s| ==> IsDigit(s[i])
    decreases |s|
  {
    if |s| == 0 then 0 else DigitsValue(s[..|s| - 1]) * 10 + DigitValue(s[|s| - 1])
  }

  /** Reading back the decimal rendering of a natural gives the natural. */
  lemma {:induction false} DigitsValueNatToString(n: nat)
    ensures DigitsValue(NatToString(n)) == n
    decreases n
  {
    if n >= 10 {
      var s := NatToString(n);
      assert s[..|s| - 1] == NatToString(n / 10);
      DigitsValueNatToString(n / 10);
    }
  }

  /** Distinct naturals have distinct decimal renderings. */
  lemma NatToStringInjective(m: nat, n: nat)
    requires NatToString(m) == NatToString(n)
    ensures m == n
  {
    DigitsValueNatToString(m);
    DigitsValueNatToString(n);
  }

  /** ASCII lower-casing, as `toLowerCase()` does on ASCII letters. */
  function LowerChar(c: char): char {
    if 'A' <= c <= 'Z' then (c as int + 32) as char else c
  }

  function Lower(s: string): (r: string)
    ensures |r| == |s|
  {
    if |s| == 0 then "" else [LowerChar(s[0])] + Lower(s[1..])
  }

  /** Every occurrence of `c` replaced by `rep` (a global one-character regex replace). */
  function ReplaceChar(s: string, c: char, rep: string): string {
    if |s| == 0 then "" else (if s[0] == c then rep else [s[0]]) + ReplaceChar(s[1..], c, rep)
  }

  lemma {:induction false} ReplaceCharAppend(a: string, b: string, c: char, rep: string)
    ensures ReplaceChar(a + b, c, rep) == ReplaceChar(a, c, rep) + ReplaceChar(b, c, rep)
    decreases |a|
  {
    if |a| > 0 {
      assert (a + b)[1..] == a[1..] + b;
      ReplaceCharAppend(a[1..], b, c, rep);
    } else {
      assert a + b == b;
    }
  }

  lemma {:induction false} ReplaceCharAbsent(s: string, c: char, rep: string)
    requires c !in s
    ensures ReplaceChar(s, c, rep) == s
    decreases |s|
  {
    if |s| > 0 {
      ReplaceCharAbsent(s[1..], c, rep);
      assert s == [s[0]] + s[1..];
    }
  }

  /** Characters removed by a regex character-class deletion such as `/[%,亿万手]/g`. */
  function RemoveChars(s: string, drop: set<char>): (r: string)
    ensures |r| <= |s|
  {
    if |s| == 0 then "" else (if s[0] in drop then "" else [s[0]]) + RemoveChars(s[1..], drop)
  }

  /** What `RemoveChars` keeps comes from the input and is never a dropped character. */
  lemma {:induction false} RemoveCharsKeeps(s: string, drop: set<char>)
    ensures forall i :: 0 <= i < |RemoveChars(s, drop)| ==>
      RemoveChars(s, drop)[i] !in drop && RemoveChars(s, drop)[i] in s
    decreases |s|
  {
    if |s| > 0 {
      RemoveCharsKeeps(s[1..], drop);
    }
  }

  /** Deleting characters distributes over concatenation. */
  lemma {:induction false} RemoveCharsAppend(a: string, b: string, drop: set<char>)
    ensures RemoveChars(a + b, drop) == RemoveChars(a, drop) + RemoveChars(b, drop)
    decreases |a|
  {
    if |a| == 0 {
      assert a + b == b;
    } else {
      var ab := a + b;
      var h := if a[0] in drop then "" else [a[0]];
      assert ab[0] == a[0];
      assert ab[1..] == a[1..] + b;
      assert RemoveChars(ab, drop) == h + RemoveChars(a[1..] + b, drop);
      RemoveCharsAppend(a[1..], b, drop);
    }
  }

  /** Text with none of the deleted characters is kept whole. */
  lemma {:induction false} RemoveCharsNone(s: string, drop: set<char>)
    requires forall i :: 0 <= i < |s| ==> s[i] !in drop
    ensures RemoveChars(s, drop) == s
    decreases |s|
  {
    if |s| > 0 {
      RemoveCharsNone(s[1..], drop);
      assert s == [s[0]] + s[1..];
    }
  }

  /** A character `/[^\d.-]/g` does not delete: an ASCII digit, `.` or `-`. */
  predicate NumericChar(c: char) {
    IsDigit(c) || c == '.' || c == '-'
  }

  /** `s.replace(/[^\d.-]/g, '')`: only digits, dots and minus signs are kept, in order. */
  function KeepNumericChars(s: string): (r: string)
    ensures |r| <= |s|
  {
    if |s| == 0 then "" else (if NumericChar(s[0]) then [s[0]] else "") + KeepNumericChars(s[1..])
  }
}
