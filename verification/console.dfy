/** Console rendering of the AI report (`AIAnalyzer.strip_markdown` and `AIAnalyzer.format_text`):
    the last clean-up step of the markdown stripper, the flattening of the text into one
    paragraph, and the greedy cut of that paragraph into console lines. */
module Console {
  import opened Text

  // ---------------------------------------------------------------------------------------------
  // Blank-line collapsing and the final strip of `strip_markdown`
  // ---------------------------------------------------------------------------------------------

  /** Number of newlines `s` starts with. */
  function LeadingNewlines(s: string): (n: nat)
    ensures n <= |s|
    ensures forall i :: 0 <= i < n ==> s[i] == '\n'
    ensures n < |s| ==> s[n] != '\n'
  {
    if |s| == 0 || s[0] != '\n' then 0 else 1 + LeadingNewlines(s[1..])
  }

  /** `re.sub(r'\n\n+', '\n\n', s)`: every run of two or more newlines becomes exactly two. */
  function Collapse(s: string): (r: string)
    ensures |r| <= |s|
    ensures |r| == 0 <==> |s| == 0
    ensures |r| > 0 ==> r[0] == s[0]
    decreases |s|
  {
    if |s| == 0 then ""
    else if s[0] != '\n' then [s[0]] + Collapse(s[1..])
    else
      var n := LeadingNewlines(s);
      (if n >= 2 then "\n\n" else "\n") + Collapse(s[n..])
  }

  /** No three newlines in a row, i.e. never more than one blank line. */
  predicate NoTriple(s: string) {
    forall i :: 0 <= i && i + 2 < |s| ==> !(s[i] == '\n' && s[i + 1] == '\n' && s[i + 2] == '\n')
  }

  /** After collapsing, no run of three newlines is left. */
  lemma {:induction false} CollapseNoTriple(s: string)
    ensures NoTriple(Collapse(s))
    decreases |s|
  {
    if |s| == 0 {
    } else if s[0] != '\n' {
      CollapseNoTriple(s[1..]);
    } else {
      var n := LeadingNewlines(s);
      CollapseNoTriple(s[n..]);
      var rest := Collapse(s[n..]);
      assert |rest| > 0 ==> rest[0] != '\n';
    }
  }

  lemma NoTripleSlice(s: string, a: nat, b: nat)
    requires NoTriple(s) && a <= b <= |s|
    ensures NoTriple(s[a..b])
  {
    var t := s[a..b];
    forall i | 0 <= i && i + 2 < |t|
      ensures !(t[i] == '\n' && t[i + 1] == '\n' && t[i + 2] == '\n')
    {
      assert t[i] == s[a + i] && t[i + 1] == s[a + i + 1] && t[i + 2] == s[a + i + 2];
    }
  }

  /** Text that already has no triple newline is left alone. */
  lemma {:induction false} CollapseFixed(s: string)
    requires NoTriple(s)
    ensures Collapse(s) == s
    decreases |s|
  {
    if |s| == 0 {
    } else if s[0] != '\n' {
      NoTripleSlice(s, 1, |s|);
      CollapseFixed(s[1..]);
      assert s == [s[0]] + s[1..];
    } else {
      var n := LeadingNewlines(s);
      assert |s| >= 3 ==> !(s[0] == '\n' && s[1] == '\n' && s[2] == '\n');
      assert n <= 2;
      NoTripleSlice(s, n, |s|);
      CollapseFixed(s[n..]);
      if n == 2 {
        assert s == "\n\n" + s[2..];
      } else {
        assert s == "\n" + s[1..];
      }
    }
  }

  /** Collapsing twice is collapsing once. */
  lemma CollapseIdempotent(s: string)
    ensures Collapse(Collapse(s)) == Collapse(s)
  {
    CollapseNoTriple(s);
    CollapseFixed(Collapse(s));
  }

  lemma {:induction false} DropAll(s: string, drop: set<char>)
    requires forall i :: 0 <= i < |s| ==> s[i] in drop
    ensures RemoveChars(s, drop) == ""
    decreases |s|
  {
    if |s| > 0 {
      DropAll(s[1..], drop);
    }
  }

  /** Collapsing deletes newlines only: every other character survives, in order. */
  lemma {:induction false} CollapseKeepsText(s: string)
    ensures RemoveChars(Collapse(s), {'\n'}) == RemoveChars(s, {'\n'})
    decreases |s|
  {
    if |s| == 0 {
    } else if s[0] != '\n' {
      CollapseKeepsText(s[1..]);
      RemoveCharsAppend([s[0]], Collapse(s[1..]), {'\n'});
    } else {
      var n := LeadingNewlines(s);
      var head: string := if n >= 2 then "\n\n" else "\n";
      CollapseKeepsText(s[n..]);
      RemoveCharsAppend(head, Collapse(s[n..]), {'\n'});
      DropAll(head, {'\n'});
      assert s == s[..n] + s[n..];
      RemoveCharsAppend(s[..n], s[n..], {'\n'});
      DropAll(s[..n], {'\n'});
    }
  }

  /** The characters of `s` that are not whitespace to `str.isspace`, in order. */
  function Visible(s: string): (r: string)
    ensures |r| <= |s|
    ensures forall i :: 0 <= i < |r| ==> !PySpace(r[i])
  {
    if |s| == 0 then "" else (if PySpace(s[0]) then "" else [s[0]]) + Visible(s[1..])
  }

  lemma {:induction false} VisibleAppend(a: string, b: string)
    ensures Visible(a + b) == Visible(a) + Visible(b)
    decreases |a|
  {
    if |a| == 0 {
      assert a + b == b;
    } else {
      assert (a + b)[0] == a[0];
      assert (a + b)[1..] == a[1..] + b;
      VisibleAppend(a[1..], b);
    }
  }

  lemma {:induction false} VisibleNone(s: string)
    requires forall i :: 0 <= i < |s| ==> PySpace(s[i])
    ensures Visible(s) == ""
    decreases |s|
  {
    if |s| > 0 {
      VisibleNone(s[1..]);
    }
  }

  /** Collapsing blank lines touches only newlines, so the visible text is unchanged. */
  lemma {:induction false} CollapseKeepsVisible(s: string)
    ensures Visible(Collapse(s)) == Visible(s)
    decreases |s|
  {
    if |s| == 0 {
    } else if s[0] != '\n' {
      CollapseKeepsVisible(s[1..]);
      VisibleAppend([s[0]], Collapse(s[1..]));
    } else {
      var n := LeadingNewlines(s);
      var head: string := if n >= 2 then "\n\n" else "\n";
      CollapseKeepsVisible(s[n..]);
      VisibleAppend(head, Collapse(s[n..]));
      VisibleNone(head);
      assert s == s[..n] + s[n..];
      VisibleAppend(s[..n], s[n..]);
      VisibleNone(s[..n]);
    }
  }

  /** `strip()` removes only whitespace, so the visible text is unchanged. */
  lemma TrimKeepsVisible(s: string)
    ensures Visible(Trim(s, PySpaces)) == Visible(s)
  {
    var i, j := TrimStartIndex(s, PySpaces), TrimEndIndex(s, PySpaces);
    TrimRemovesOnlySpace(s, PySpaces);
    var lead, mid, tail := s[0..i], s[i..j], s[j..|s|];
    SpaceRunInvisible(s, 0, i);
    SpaceRunInvisible(s, j, |s|);
    assert Visible(lead) == "" && Visible(tail) == "";
    assert Trim(s, PySpaces) == mid;
    assert s == lead + mid + tail;
    VisibleAppend(lead + mid, tail);
    VisibleAppend(lead, mid);
  }

  lemma SpaceRunInvisible(s: string, lo: nat, hi: nat)
    requires lo <= hi <= |s|
    requires forall k :: lo <= k < hi ==> IsSpace(PySpaces, s[k])
    ensures Visible(s[lo..hi]) == ""
  {
    var t := s[lo..hi];
    forall k | 0 <= k < |t| ensures PySpace(t[k]) {
      assert t[k] == s[lo + k];
      assert IsSpace(PySpaces, s[lo + k]);
    }
    VisibleNone(t);
  }

  /** Python `strip()` has been applied: no whitespace at either end. */
  predicate Stripped(s: string) {
    s == [] || (!IsSpace(PySpaces, s[0]) && !IsSpace(PySpaces, s[|s| - 1]))
  }

  /** The last two steps of `strip_markdown`: collapse blank-line runs, then `strip()`. */
  function StripTail(s: string): (r: string)
    ensures Stripped(r)
    ensures NoTriple(r)
  {
    var c := Collapse(s);
    CollapseNoTriple(s);
    NoTripleSlice(c, TrimStartIndex(c, PySpaces), TrimEndIndex(c, PySpaces));
    Trim(c, PySpaces)
  }

  /** The tail is idempotent: cleaning already-clean text changes nothing. */
  lemma StripTailIdempotent(s: string)
    ensures StripTail(StripTail(s)) == StripTail(s)
  {
    var t := StripTail(s);
    CollapseFixed(t);
    TrimNoop(t, PySpaces);
  }

  /** `strip_markdown`: the regular-expression rewrites (headings, emphasis, code, links, list
      markers, tables, quotes) are the parameter `rewrite`; the blank-line collapse and the strip
      follow them. */
  function StripMarkdown(text: string, rewrite: string -> string): (r: string)
    ensures Stripped(r) && NoTriple(r)
    ensures Visible(r) == Visible(rewrite(text))
  {
    var t := rewrite(text);
    CollapseKeepsVisible(t);
    TrimKeepsVisible(Collapse(t));
    StripTail(t)
  }

  // ---------------------------------------------------------------------------------------------
  // Flattening into one paragraph
  // ---------------------------------------------------------------------------------------------

  /** The stripped, non-blank lines, in order (`line.strip() for line in … if line.strip()`). */
  function KeptLines(lines: seq<string>): (r: seq<string>)
    ensures |r| <= |lines|
    ensures forall k :: 0 <= k < |r| ==> r[k] != [] && Stripped(r[k])
    ensures forall k :: 0 <= k < |r| ==> exists j :: 0 <= j < |lines| && r[k] == Trim(lines[j], PySpaces)
  {
    if |lines| == 0 then []
    else
      var t := Trim(lines[0], PySpaces);
      var rest := KeptLines(lines[1..]);
      assert forall k :: 0 <= k < |rest| ==> exists j :: 0 <= j < |lines| && rest[k] == Trim(lines[j], PySpaces) by {
        forall k | 0 <= k < |rest|
          ensures exists j :: 0 <= j < |lines| && rest[k] == Trim(lines[j], PySpaces)
        {
          var j :| 0 <= j < |lines| - 1 && rest[k] == Trim(lines[1..][j], PySpaces);
          assert lines[1..][j] == lines[j + 1];
        }
      }
      (if t != [] then [t] else []) + rest
  }

  /** The lines of `a + b` that survive are those of `a` followed by those of `b`. */
  lemma {:induction false} KeptLinesAppend(a: seq<string>, b: seq<string>)
    ensures KeptLines(a + b) == KeptLines(a) + KeptLines(b)
    decreases |a|
  {
    if |a| == 0 {
      assert a + b == b;
    } else {
      var t := Trim(a[0], PySpaces);
      var h: seq<string> := if t != [] then [t] else [];
      assert (a + b)[0] == a[0];
      assert (a + b)[1..] == a[1..] + b;
      KeptLinesAppend(a[1..], b);
      assert KeptLines(a + b) == h + (KeptLines(a[1..]) + KeptLines(b));
      assert h + (KeptLines(a[1..]) + KeptLines(b)) == (h + KeptLines(a[1..])) + KeptLines(b);
    }
  }

  /** One line survives, stripped, exactly when it is not blank. */
  lemma KeptLinesOne(line: string)
    ensures KeptLines([line]) == if Trim(line, PySpaces) != [] then [Trim(line, PySpaces)] else []
  {
    assert [line][1..] == [];
  }

  /** The visible characters of each part, in order. */
  function VisibleAll(parts: seq<string>): string {
    if |parts| == 0 then "" else Visible(parts[0]) + VisibleAll(parts[1..])
  }

  /** Joining with an invisible separator shows the parts' visible characters in order. */
  lemma {:induction false} JoinVisible(parts: seq<string>, sep: string)
    requires Visible(sep) == ""
    ensures Visible(Join(parts, sep)) == VisibleAll(parts)
    decreases |parts|
  {
    if |parts| == 1 {
      assert parts[1..] == [];
    } else if |parts| > 1 {
      JoinVisible(parts[1..], sep);
      VisibleAppend(parts[0] + sep, Join(parts[1..], sep));
      VisibleAppend(parts[0], sep);
    }
  }

  /** Stripping and dropping blank lines loses no visible character. */
  lemma {:induction false} KeptLinesVisible(lines: seq<string>)
    ensures VisibleAll(KeptLines(lines)) == VisibleAll(lines)
    decreases |lines|
  {
    if |lines| > 0 {
      var t := Trim(lines[0], PySpaces);
      var rest := KeptLines(lines[1..]);
      TrimKeepsVisible(lines[0]);
      KeptLinesVisible(lines[1..]);
      if t != [] {
        assert KeptLines(lines) == [t] + rest;
        assert ([t] + rest)[1..] == rest;
      } else {
        assert KeptLines(lines) == rest;
      }
    }
  }

  /** Trimming keeps only characters of the input. */
  lemma TrimInside(s: string, c: char)
    requires c !in s
    ensures c !in Trim(s, PySpaces)
  {
    var a, b := TrimStartIndex(s, PySpaces), TrimEndIndex(s, PySpaces);
    forall i | 0 <= i < b - a ensures Trim(s, PySpaces)[i] != c {
      assert Trim(s, PySpaces)[i] == s[a + i];
    }
  }

  lemma {:induction false} JoinLacks(parts: seq<string>, sep: string, c: char)
    requires c !in sep
    requires forall k :: 0 <= k < |parts| ==> c !in parts[k]
    ensures c !in Join(parts, sep)
    decreases |parts|
  {
    if |parts| > 1 {
      JoinLacks(parts[1..], sep, c);
    }
  }

  /** Stripped, non-empty pieces joined with a space give a stripped string. */
  lemma {:induction false} JoinStripped(parts: seq<string>)
    requires forall k :: 0 <= k < |parts| ==> parts[k] != [] && Stripped(parts[k])
    ensures Stripped(Join(parts, " "))
    ensures |parts| > 0 ==> Join(parts, " ") != [] && Join(parts, " ")[0] == parts[0][0]
    decreases |parts|
  {
    if |parts| > 1 {
      JoinStripped(parts[1..]);
      var tail := Join(parts[1..], " ");
      var j := parts[0] + " " + tail;
      assert j[0] == parts[0][0];
      assert j[|j| - 1] == tail[|tail| - 1];
    }
  }

  /** `" ".join(line.strip() for line in text.split("\n") if line.strip())`. */
  function Flatten(text: string): (r: string)
    ensures '\n' !in r
    ensures Stripped(r)
    ensures Visible(r) == Visible(text)
  {
    var pieces := Split(text, '\n');
    var kept := KeptLines(pieces);
    JoinSplit(text, '\n');
    VisibleNone("\n");
    VisibleNone(" ");
    JoinVisible(pieces, "\n");
    JoinVisible(kept, " ");
    KeptLinesVisible(pieces);
    SplitPiecesLackSeparator(text, '\n');
    forall k | 0 <= k < |kept| ensures '\n' !in kept[k] {
      var j :| 0 <= j < |pieces| && kept[k] == Trim(pieces[j], PySpaces);
      TrimInside(pieces[j], '\n');
    }
    JoinLacks(kept, " ", '\n');
    JoinStripped(kept);
    Join(kept, " ")
  }

  /** A one-line, already stripped text flattens to itself. */
  lemma FlattenFixed(text: string)
    requires '\n' !in text && Stripped(text)
    ensures Flatten(text) == text
  {
    SplitJoin([text], '\n');
    assert Join([text], "\n") == text;
    TrimNoop(text, PySpaces);
    if text == [] {
      assert KeptLines([text]) == [];
    } else {
      assert KeptLines([text]) == [text];
    }
  }

  /** Flattening twice is flattening once. */
  lemma FlattenIdempotent(text: string)
    ensures Flatten(Flatten(text)) == Flatten(text)
  {
    FlattenFixed(Flatten(text));
  }

  // ---------------------------------------------------------------------------------------------
  // Cutting the paragraph into console lines
  // ---------------------------------------------------------------------------------------------

  /** The sentence-ending marks a line may end on. */
  const Terminators: set<char> := {'。', '！', '？', '；'}

  /** The test `format_text` applies after appending each character: the line ends on a sentence
      mark and is longer than 30 characters, or it has reached `maxWidth`. */
  predicate Breaks(s: string, maxWidth: int) {
    |s| > 0 && ((s[|s| - 1] in Terminators && |s| > 30) || |s| >= maxWidth)
  }

  /** No proper non-empty prefix of `s` passes the test. */
  predicate NoEarlyBreak(s: string, maxWidth: int) {
    forall j :: 0 < j < |s| ==> !Breaks(s[..j], maxWidth)
  }

  /** Neither `s` nor any non-empty prefix of it passes the test. */
  predicate NoBreakYet(s: string, maxWidth: int) {
    NoEarlyBreak(s, maxWidth) && !Breaks(s, maxWidth)
  }

  /** `chunks` is how the loop cuts `text`: the pieces put back together give the text, every
      piece but the last ends at the first position where the test holds, and the last piece is
      the remainder, on which the test never held. */
  predicate IsChunking(text: string, maxWidth: int, chunks: seq<string>) {
    |chunks| >= 1
    && Concat(chunks) == text
    && (forall i :: 0 <= i < |chunks| - 1 ==> Breaks(chunks[i], maxWidth) && NoEarlyBreak(chunks[i], maxWidth))
    && NoBreakYet(chunks[|chunks| - 1], maxWidth)
  }

  function TrimAll(parts: seq<string>): (r: seq<string>)
    ensures |r| == |parts|
    ensures forall k :: 0 <= k < |r| ==> r[k] == Trim(parts[k], PySpaces)
  {
    seq(|parts|, k requires 0 <= k < |parts| => Trim(parts[k], PySpaces))
  }

  /** The lines `format_text` returns for a cut: every full piece stripped, and the remainder
      stripped when it is not blank. */
  function LinesOf(chunks: seq<string>): (r: seq<string>)
    requires |chunks| >= 1
    ensures |chunks| - 1 <= |r| <= |chunks|
    ensures forall k :: 0 <= k < |chunks| - 1 ==> r[k] == Trim(chunks[k], PySpaces)
    ensures |r| == |chunks| <==> Trim(chunks[|chunks| - 1], PySpaces) != []
  {
    var last := Trim(chunks[|chunks| - 1], PySpaces);
    TrimAll(chunks[..|chunks| - 1]) + (if last != [] then [last] else [])
  }

  lemma {:induction false} ConcatSnoc(parts: seq<string>, s: string)
    ensures Concat(parts + [s]) == Concat(parts) + s
    decreases |parts|
  {
    if |parts| == 0 {
      assert parts + [s] == [s];
    } else {
      assert (parts + [s])[1..] == parts[1..] + [s];
      ConcatSnoc(parts[1..], s);
    }
  }

  /** Appending one character to a piece on which the test has not held yet: the test can hold
      only at the new end, and it holds there exactly when the loop's condition does. */
  lemma Step(current: string, c: char, maxWidth: int)
    requires NoBreakYet(current, maxWidth)
    ensures NoEarlyBreak(current + [c], maxWidth)
    ensures Breaks(current + [c], maxWidth) <==> (c in Terminators && |current| + 1 > 30) || |current| + 1 >= maxWidth
  {
    var next := current + [c];
    assert forall j :: 0 < j < |next| ==> next[..j] == current[..j];
    assert current[..|current|] == current;
  }

  /** Every piece in `done` is a full piece: it passes the test, and only at its end. */
  predicate AllFull(done: seq<string>, maxWidth: int) {
    forall i :: 0 <= i < |done| ==> Breaks(done[i], maxWidth) && NoEarlyBreak(done[i], maxWidth)
  }

  /** The state of the character loop after `idx` characters: the full pieces cut so far and the
      piece being built make up the text read so far, and the test has not held on the latter. */
  predicate Cutting(text: string, idx: int, maxWidth: int, done: seq<string>, current: string) {
    0 <= idx <= |text|
    && Concat(done) + current == text[..idx]
    && AllFull(done, maxWidth)
    && NoBreakYet(current, maxWidth)
  }

  lemma TrimAllSnoc(parts: seq<string>, s: string)
    ensures TrimAll(parts + [s]) == TrimAll(parts) + [Trim(s, PySpaces)]
  {
  }

  lemma PrefixSnoc(text: string, idx: int)
    requires 0 <= idx < |text|
    ensures text[..idx + 1] == text[..idx] + [text[idx]]
  {
  }

  /** Reading a character that makes the test hold closes the piece. */
  lemma CutBreak(text: string, idx: int, maxWidth: int, done: seq<string>, current: string)
    requires idx < |text| && Cutting(text, idx, maxWidth, done, current)
    requires Breaks(current + [text[idx]], maxWidth)
    ensures Cutting(text, idx + 1, maxWidth, done + [current + [text[idx]]], "")
  {
    var next := current + [text[idx]];
    Step(current, text[idx], maxWidth);
    PrefixSnoc(text, idx);
    ConcatSnoc(done, next);
    assert forall i :: 0 <= i < |done| ==> (done + [next])[i] == done[i];
  }

  /** Reading a character on which the test does not hold extends the piece. */
  lemma CutKeep(text: string, idx: int, maxWidth: int, done: seq<string>, current: string)
    requires idx < |text| && Cutting(text, idx, maxWidth, done, current)
    requires !Breaks(current + [text[idx]], maxWidth)
    ensures Cutting(text, idx + 1, maxWidth, done, current + [text[idx]])
  {
    Step(current, text[idx], maxWidth);
    PrefixSnoc(text, idx);
  }

  /** At the end of the text the loop's state is a cut of the whole text. */
  lemma CutDone(text: string, maxWidth: int, done: seq<string>, current: string)
    requires Cutting(text, |text|, maxWidth, done, current)
    ensures IsChunking(text, maxWidth, done + [current])
    ensures (done + [current])[..|done|] == done
  {
    assert text[..|text|] == text;
    ConcatSnoc(done, current);
    assert forall i :: 0 <= i < |done| ==> (done + [current])[i] == done[i];
  }

  /** The character loop of `format_text`. */
  method FormatLines(text: string, maxWidth: int) returns (lines: seq<string>, chunks: seq<string>)
    ensures IsChunking(text, maxWidth, chunks)
    ensures lines == LinesOf(chunks)
  {
    var done: seq<string> := [];
    var current := "";
    lines := [];
    for idx := 0 to |text|
      invariant Cutting(text, idx, maxWidth, done, current)
      invariant lines == TrimAll(done)
    {
      var c := text[idx];
      var next := current + [c];
      Step(current, c, maxWidth);
      if (c in Terminators && |next| > 30) || |next| >= maxWidth {
        CutBreak(text, idx, maxWidth, done, current);
        TrimAllSnoc(done, next);
        lines := lines + [Trim(next, PySpaces)];
        done := done + [next];
        current := "";
      } else {
        CutKeep(text, idx, maxWidth, done, current);
        current := next;
      }
    }
    CutDone(text, maxWidth, done, current);
    chunks := done + [current];
    var rest := Trim(current, PySpaces);
    if rest != [] {
      lines := lines + [rest];
    }
  }

  /** A piece that breaks only at its end is no longer than the width (or one character). */
  lemma PieceWidth(s: string, maxWidth: int)
    requires NoEarlyBreak(s, maxWidth)
    ensures |s| <= (if maxWidth >= 1 then maxWidth else 1)
  {
    var w := if maxWidth >= 1 then maxWidth else 1;
    if |s| > w {
      assert |s[..w]| == w;
      assert Breaks(s[..w], maxWidth);
    }
  }

  /** Every line `format_text` returns is stripped and at most `maxWidth` characters long (one
      character when `maxWidth` is below one). */
  lemma LinesBounded(text: string, maxWidth: int, chunks: seq<string>)
    requires IsChunking(text, maxWidth, chunks)
    ensures forall k :: 0 <= k < |LinesOf(chunks)| ==>
      Stripped(LinesOf(chunks)[k]) && |LinesOf(chunks)[k]| <= (if maxWidth >= 1 then maxWidth else 1)
  {
    var r := LinesOf(chunks);
    forall k | 0 <= k < |r|
      ensures Stripped(r[k]) && |r[k]| <= (if maxWidth >= 1 then maxWidth else 1)
    {
      PieceWidth(chunks[k], maxWidth);
      assert r[k] == Trim(chunks[k], PySpaces);
    }
  }

  lemma ConcatHead(parts: seq<string>)
    requires |parts| >= 1
    ensures Concat(parts)[..|parts[0]|] == parts[0]
    ensures Concat(parts)[|parts[0]|..] == Concat(parts[1..])
  {
  }

  /** A cut has a single piece exactly when the test holds on no non-empty prefix of the text. */
  lemma OnePieceIff(text: string, maxWidth: int, a: seq<string>)
    requires IsChunking(text, maxWidth, a)
    ensures |a| == 1 <==> NoBreakYet(text, maxWidth)
  {
    ConcatHead(a);
    if |a| == 1 {
      assert Concat(a) == a[0];
    } else {
      assert Breaks(a[0], maxWidth);
      if |a[0]| < |text| {
        assert text[..|a[0]|] == a[0];
      } else {
        assert text == a[0];
      }
    }
  }

  /** The cut is determined by the text: two cuts of the same text are the same. */
  lemma {:induction false} ChunkingUnique(text: string, maxWidth: int, a: seq<string>, b: seq<string>)
    requires IsChunking(text, maxWidth, a) && IsChunking(text, maxWidth, b)
    ensures a == b
    decreases |a|
  {
    ConcatHead(a);
    ConcatHead(b);
    var x, y := a[0], b[0];
    OnePieceIff(text, maxWidth, a);
    OnePieceIff(text, maxWidth, b);
    if |a| == 1 {
      assert Concat(a) == x && Concat(b) == y;
    } else {
      var m := if |x| <= |y| then |x| else |y|;
      assert x[..m] == text[..m] == y[..m];
      assert Breaks(text[..m], maxWidth);
      assert m == |x| && m == |y|;
      assert x == y;
      var rest := text[|x|..];
      assert IsChunking(rest, maxWidth, a[1..]) by {
        forall i | 0 <= i < |a[1..]| - 1
          ensures Breaks(a[1..][i], maxWidth) && NoEarlyBreak(a[1..][i], maxWidth)
        {
          assert a[1..][i] == a[i + 1];
        }
      }
      assert IsChunking(rest, maxWidth, b[1..]) by {
        forall i | 0 <= i < |b[1..]| - 1
          ensures Breaks(b[1..][i], maxWidth) && NoEarlyBreak(b[1..][i], maxWidth)
        {
          assert b[1..][i] == b[i + 1];
        }
      }
      ChunkingUnique(rest, maxWidth, a[1..], b[1..]);
      assert a == [x] + a[1..];
      assert b == [y] + b[1..];
    }
  }

  /** `format_text`: strip the markdown, flatten to one paragraph, cut it into lines. */
  method FormatText(text: string, maxWidth: int, rewrite: string -> string)
    returns (lines: seq<string>, chunks: seq<string>)
    ensures IsChunking(Flatten(StripMarkdown(text, rewrite)), maxWidth, chunks)
    ensures lines == LinesOf(chunks)
    ensures forall k :: 0 <= k < |lines| ==> '\n' !in lines[k]
  {
    var flat := Flatten(StripMarkdown(text, rewrite));
    lines, chunks := FormatLines(flat, maxWidth);
    forall k | 0 <= k < |lines| ensures '\n' !in lines[k] {
      ChunkInside(flat, chunks, if k < |chunks| - 1 then k else |chunks| - 1);
      TrimInside(chunks[if k < |chunks| - 1 then k else |chunks| - 1], '\n');
    }
  }

  /** Every piece of a cut is a slice of the text, so it lacks what the text lacks. */
  lemma {:induction false} ChunkInside(text: string, chunks: seq<string>, k: nat)
    requires Concat(chunks) == text && k < |chunks|
    ensures forall c :: c !in text ==> c !in chunks[k]
    decreases |chunks|
  {
    ConcatHead(chunks);
    if k == 0 {
      forall c | c !in text ensures c !in chunks[0] {
        assert forall i :: 0 <= i < |chunks[0]| ==> chunks[0][i] == text[i];
      }
    } else {
      ChunkInside(text[|chunks[0]|..], chunks[1..], k - 1);
      forall c | c !in text ensures c !in chunks[k] {
        assert forall i :: |chunks[0]| <= i < |text| ==> text[i] == text[|chunks[0]|..][i - |chunks[0]|];
      }
    }
  }
}
