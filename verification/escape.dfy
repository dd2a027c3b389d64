/** HTML escaping: the front end's `escapeHtml` (frontend/src/main.js) and Python's
    `html.escape` used by the page serialisers. Both replace `&` first and then `<`, `>`,
    `"` and `'`; they differ only in the entity written for the apostrophe. */
module Escape {
  import opened Common
  import opened Text

  const JsApos := "&#39;"
  const PyApos := "&#x27;"

  /** The five characters the escapes replace. */
  const Special: set<char> := {'&', '<', '>', '"', '\''}

  /** The five global replacements, in the order the code applies them. Text holding none of
      the five characters comes out as it went in. */
  function EscapeChain(s: string, apos: string): (r: string)
    ensures (forall i :: 0 <= i < |s| ==> s[i] !in Special) ==> r == s
  {
    if forall i :: 0 <= i < |s| ==> s[i] !in Special then
      ReplaceCharAbsent(s, '&', "&amp;");
      ReplaceCharAbsent(s, '<', "&lt;");
      ReplaceCharAbsent(s, '>', "&gt;");
      ReplaceCharAbsent(s, '"', "&quot;");
      ReplaceCharAbsent(s, '\'', apos);
      ReplaceChar(ReplaceChar(ReplaceChar(ReplaceChar(ReplaceChar(
        s, '&', "&amp;"), '<', "&lt;"), '>', "&gt;"), '"', "&quot;"), '\'', apos)
    else
      ReplaceChar(ReplaceChar(ReplaceChar(ReplaceChar(ReplaceChar(
        s, '&', "&amp;"), '<', "&lt;"), '>', "&gt;"), '"', "&quot;"), '\'', apos)
  }

  /** `escapeHtml(text)`: `null` and `undefined` (here `None`) become the empty string. */
  function EscapeHtml(text: Option<string>): (r: string)
    ensures text.None? ==> r == ""
  {
    EscapeChain(text.GetOr(""), JsApos)
  }

  /** Python's `html.escape(s)` with its default `quote=True`: no markup character is left,
      and nothing is lost. */
  function PyEscape(s: string): (r: string)
    ensures Inert(r)
    ensures Unescape(r) == s
  {
    assert Inert(PyApos);
    ChainIsEach(s, PyApos);
    EscapeEachInert(s, PyApos);
    UnescapeEach(s, PyApos);
    EscapeChain(s, PyApos)
  }

  /** What one character becomes. */
  function Entity(c: char, apos: string): string {
    if c == '&' then "&amp;"
    else if c == '<' then "&lt;"
    else if c == '>' then "&gt;"
    else if c == '"' then "&quot;"
    else if c == '\'' then apos
    else [c]
  }

  /** Escaping one character at a time: the reference the replacement chain is held to. */
  function EscapeEach(s: string, apos: string): string
    decreases |s|
  {
    if |s| == 0 then "" else Entity(s[0], apos) + EscapeEach(s[1..], apos)
  }

  lemma ChainAppend(a: string, b: string, apos: string)
    ensures EscapeChain(a + b, apos) == EscapeChain(a, apos) + EscapeChain(b, apos)
  {
    var r1a, r1b := ReplaceChar(a, '&', "&amp;"), ReplaceChar(b, '&', "&amp;");
    ReplaceCharAppend(a, b, '&', "&amp;");
    var r2a, r2b := ReplaceChar(r1a, '<', "&lt;"), ReplaceChar(r1b, '<', "&lt;");
    ReplaceCharAppend(r1a, r1b, '<', "&lt;");
    var r3a, r3b := ReplaceChar(r2a, '>', "&gt;"), ReplaceChar(r2b, '>', "&gt;");
    ReplaceCharAppend(r2a, r2b, '>', "&gt;");
    var r4a, r4b := ReplaceChar(r3a, '"', "&quot;"), ReplaceChar(r3b, '"', "&quot;");
    ReplaceCharAppend(r3a, r3b, '"', "&quot;");
    ReplaceCharAppend(r4a, r4b, '\'', apos);
  }

  /** None of the later replacements touches an entity already written. */
  predicate Inert(e: string) {
    '<' !in e && '>' !in e && '"' !in e && '\'' !in e
  }

  lemma ChainOfInert(e: string, from: nat, apos: string)
    requires Inert(e) && 1 <= from <= 5
    ensures ReplaceChar(e, '\'', apos) == e
    ensures from <= 4 ==> ReplaceChar(e, '"', "&quot;") == e
    ensures from <= 3 ==> ReplaceChar(e, '>', "&gt;") == e
    ensures from <= 2 ==> ReplaceChar(e, '<', "&lt;") == e
  {
    ReplaceCharAbsent(e, '\'', apos);
    ReplaceCharAbsent(e, '"', "&quot;");
    ReplaceCharAbsent(e, '>', "&gt;");
    ReplaceCharAbsent(e, '<', "&lt;");
  }

  lemma ReplaceOne(c: char, x: char, rep: string)
    ensures ReplaceChar([c], x, rep) == if c == x then rep else [c]
  {
    assert [c][1..] == [];
  }

  lemma ChainOne(c: char, apos: string)
    requires Inert(apos)
    ensures EscapeChain([c], apos) == Entity(c, apos)
  {
    ReplaceOne(c, '&', "&amp;");
    var r1 := ReplaceChar([c], '&', "&amp;");
    if c == '&' {
      ChainOfInert("&amp;", 2, apos);
    } else {
      ReplaceOne(c, '<', "&lt;");
      if c == '<' {
        ChainOfInert("&lt;", 3, apos);
      } else {
        ReplaceOne(c, '>', "&gt;");
        if c == '>' {
          ChainOfInert("&gt;", 4, apos);
        } else {
          ReplaceOne(c, '"', "&quot;");
          if c == '"' {
            ChainOfInert("&quot;", 5, apos);
          } else {
            ReplaceOne(c, '\'', apos);
          }
        }
      }
    }
  }

  /** The chain of global replacements escapes each character independently: replacing
      `&` first keeps the later entities' own `&` intact. */
  lemma {:induction false} ChainIsEach(s: string, apos: string)
    requires Inert(apos)
    ensures EscapeChain(s, apos) == EscapeEach(s, apos)
    decreases |s|
  {
    if |s| > 0 {
      assert s == [s[0]] + s[1..];
      ChainAppend([s[0]], s[1..], apos);
      ChainOne(s[0], apos);
      ChainIsEach(s[1..], apos);
    }
  }

  /** Escaped text contains no character that could open or close markup or an attribute. */
  lemma {:induction false} EscapeEachInert(s: string, apos: string)
    requires Inert(apos)
    ensures Inert(EscapeEach(s, apos))
    decreases |s|
  {
    if |s| > 0 {
      EscapeEachInert(s[1..], apos);
      var e := Entity(s[0], apos);
      assert Inert(e);
      var r := EscapeEach(s[1..], apos);
      assert forall x :: x in e + r ==> x in e || x in r;
    }
  }

  /** The front end's escaping leaves no `<`, `>`, `"` or `'` in its output. */
  lemma EscapeHtmlInert(text: Option<string>)
    ensures Inert(EscapeHtml(text))
  {
    ChainIsEach(text.GetOr(""), JsApos);
    EscapeEachInert(text.GetOr(""), JsApos);
  }

  /** Decoding of the entities either escape writes; anything else is kept. */
  function Unescape(s: string): string
    decreases |s|
  {
    if |s| == 0 then ""
    else if StartsWith(s, "&amp;") then "&" + Unescape(s[5..])
    else if StartsWith(s, "&lt;") then "<" + Unescape(s[4..])
    else if StartsWith(s, "&gt;") then ">" + Unescape(s[4..])
    else if StartsWith(s, "&quot;") then "\"" + Unescape(s[6..])
    else if StartsWith(s, "&#39;") then "'" + Unescape(s[5..])
    else if StartsWith(s, "&#x27;") then "'" + Unescape(s[6..])
    else [s[0]] + Unescape(s[1..])
  }

  lemma DiffersAt(s: string, p: string, i: nat)
    requires i < |p| && i < |s| && s[i] != p[i]
    ensures !StartsWith(s, p)
  {
    if |p| <= |s| {
      assert s[..|p|][i] == s[i];
    }
  }

  /** A character that does not start an entity is kept as it is. */
  lemma UnescapePlain(c: char, rest: string)
    requires c != '&'
    ensures Unescape([c] + rest) == [c] + Unescape(rest)
  {
    var s := [c] + rest;
    DiffersAt(s, "&amp;", 0);
    DiffersAt(s, "&lt;", 0);
    DiffersAt(s, "&gt;", 0);
    DiffersAt(s, "&quot;", 0);
    DiffersAt(s, "&#39;", 0);
    DiffersAt(s, "&#x27;", 0);
    assert s[1..] == rest;
  }

  lemma Prefixed(e: string, rest: string)
    ensures StartsWith(e + rest, e) && (e + rest)[|e|..] == rest
  {
    assert (e + rest)[..|e|] == e;
  }

  lemma UnescapeNamed(c: char, rest: string, apos: string)
    requires c == '&' || c == '<' || c == '>' || c == '"'
    ensures Unescape(Entity(c, apos) + rest) == [c] + Unescape(rest)
  {
    var e := Entity(c, apos);
    var s := e + rest;
    Prefixed(e, rest);
    if c == '<' {
      DiffersAt(s, "&amp;", 1);
    } else if c == '>' {
      DiffersAt(s, "&amp;", 1);
      DiffersAt(s, "&lt;", 1);
    } else if c == '"' {
      DiffersAt(s, "&amp;", 1);
      DiffersAt(s, "&lt;", 1);
      DiffersAt(s, "&gt;", 1);
    }
  }

  lemma UnescapeApos(rest: string, apos: string)
    requires apos == JsApos || apos == PyApos
    ensures Unescape(apos + rest) == "'" + Unescape(rest)
  {
    var s := apos + rest;
    Prefixed(apos, rest);
    DiffersAt(s, "&amp;", 1);
    DiffersAt(s, "&lt;", 1);
    DiffersAt(s, "&gt;", 1);
    DiffersAt(s, "&quot;", 1);
    if apos == PyApos {
      DiffersAt(s, "&#39;", 2);
    }
  }

  lemma UnescapeEntity(c: char, rest: string, apos: string)
    requires apos == JsApos || apos == PyApos
    ensures Unescape(Entity(c, apos) + rest) == [c] + Unescape(rest)
  {
    if c == '&' || c == '<' || c == '>' || c == '"' {
      UnescapeNamed(c, rest, apos);
    } else if c == '\'' {
      UnescapeApos(rest, apos);
    } else {
      UnescapePlain(c, rest);
    }
  }

  /** Decoding undoes escaping character by character. */
  lemma {:induction false} UnescapeEach(s: string, apos: string)
    requires apos == JsApos || apos == PyApos
    ensures Unescape(EscapeEach(s, apos)) == s
    decreases |s|
  {
    if |s| > 0 {
      UnescapeEntity(s[0], EscapeEach(s[1..], apos), apos);
      UnescapeEach(s[1..], apos);
      assert s == [s[0]] + s[1..];
    }
  }

  /** `escapeHtml` loses nothing: decoding its output gives the text back. */
  lemma EscapeHtmlRoundTrip(s: string)
    ensures Unescape(EscapeHtml(Some(s))) == s
  {
    ChainIsEach(s, JsApos);
    UnescapeEach(s, JsApos);
  }
}
