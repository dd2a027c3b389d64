/** Markup as the page serialisers write it, one token per tag or run of text. Fixed template
    text that carries no data (style sheets, scripts, static panels, indentation) is a `Block`
    whose content the model does not spell out. `Elements` reads the elements of one tag back
    out of a token stream; the serialisers' properties are stated through it. */
module Markup {
  import opened Text

  type Attrs = seq<(string, string)>

  datatype Tok =
    | Open(tag: string, attrs: Attrs)
    | Close(tag: string)
    | Chars(text: string)
    | Block(name: string)

  /** The text a token stands for; `block` gives the template text of each fixed block. */
  function Render(toks: seq<Tok>, block: string -> string): string
    decreases |toks|
  {
    if |toks| == 0 then ""
    else
      var head := match toks[0]
        case Open(t, a) => "<" + t + RenderAttrs(a) + ">"
        case Close(t) => "</" + t + ">"
        case Chars(s) => s
        case Block(n) => block(n);
      head + Render(toks[1..], block)
  }

  function RenderAttrs(a: Attrs): string
    decreases |a|
  {
    if |a| == 0 then "" else " " + a[0].0 + "=\"" + a[0].1 + "\"" + RenderAttrs(a[1..])
  }

  /** `<tag attrs>body</tag>`. */
  function Wrap(tag: string, attrs: Attrs, body: seq<Tok>): (r: seq<Tok>)
    ensures |r| == |body| + 2
  {
    [Open(tag, attrs)] + body + [Close(tag)]
  }

  /** An element without attributes around plain text renders as the f-string `<tag>text</tag>`. */
  lemma RenderPlainElement(tag: string, text: string, block: string -> string)
    ensures Render(Wrap(tag, [], [Chars(text)]), block) == "<" + tag + ">" + text + "</" + tag + ">"
  {
    var w := Wrap(tag, [], [Chars(text)]);
    assert RenderAttrs([]) == "";
    assert w[1..] == [Chars(text), Close(tag)];
    assert w[1..][1..] == [Close(tag)];
    assert w[1..][1..][1..] == [];
    assert Render([Close(tag)], block) == "</" + tag + ">" + Render([], block);
    assert Render(w[1..], block) == text + Render([Close(tag)], block);
    assert Render(w, block) == "<" + tag + RenderAttrs([]) + ">" + Render(w[1..], block);
  }

  predicate OpensTag(t: Tok, tag: string) {
    t.Open? && t.tag == tag
  }

  predicate NoOpen(toks: seq<Tok>, tag: string) {
    forall k :: 0 <= k < |toks| ==> !OpensTag(toks[k], tag)
  }

  predicate NoClose(toks: seq<Tok>, tag: string) {
    forall k :: 0 <= k < |toks| ==> toks[k] != Close(tag)
  }

  /** Position of the first `</tag>` at or after `i`, or `|toks|`. */
  function CloseAt(toks: seq<Tok>, tag: string, i: nat): (j: nat)
    requires i <= |toks|
    ensures i <= j <= |toks|
    ensures j < |toks| ==> toks[j] == Close(tag)
    ensures forall k :: i <= k < j ==> toks[k] != Close(tag)
    decreases |toks| - i
  {
    if i == |toks| || toks[i] == Close(tag) then i else CloseAt(toks, tag, i + 1)
  }

  /** An element read back: its attributes and what lies between its tags. */
  datatype Elem = Elem(attrs: Attrs, body: seq<Tok>)

  /** Every `tag` element in document order, each running to the first `</tag>` after it (the
      serialisers never nest an element inside one of the same tag). */
  function Elements(toks: seq<Tok>, tag: string): (r: seq<Elem>)
    ensures |r| <= |toks|
    decreases |toks|
  {
    if |toks| == 0 then []
    else if OpensTag(toks[0], tag) then
      var j := CloseAt(toks, tag, 1);
      [Elem(toks[0].attrs, toks[1..j])] + (if j < |toks| then Elements(toks[j + 1..], tag) else [])
    else Elements(toks[1..], tag)
  }

  /** Every `tag` element the reader meets in `toks` is closed inside `toks`. */
  predicate ClosedFor(toks: seq<Tok>, tag: string)
    decreases |toks|
  {
    if |toks| == 0 then true
    else if OpensTag(toks[0], tag) then
      var j := CloseAt(toks, tag, 1);
      j < |toks| && ClosedFor(toks[j + 1..], tag)
    else ClosedFor(toks[1..], tag)
  }

  lemma {:induction false} CloseAtAppend(a: seq<Tok>, b: seq<Tok>, tag: string, i: nat)
    requires i <= |a| && CloseAt(a, tag, i) < |a|
    ensures CloseAt(a + b, tag, i) == CloseAt(a, tag, i)
    decreases |a| - i
  {
    assert (a + b)[i] == a[i];
    if a[i] != Close(tag) {
      CloseAtAppend(a, b, tag, i + 1);
    }
  }

  /** Reading a closed stream and then more markup reads the two parts one after the other. */
  lemma {:induction false} ElementsAppend(a: seq<Tok>, b: seq<Tok>, tag: string)
    requires ClosedFor(a, tag)
    ensures Elements(a + b, tag) == Elements(a, tag) + Elements(b, tag)
    ensures ClosedFor(b, tag) ==> ClosedFor(a + b, tag)
    decreases |a|
  {
    if |a| == 0 {
      assert a + b == b;
    } else if OpensTag(a[0], tag) {
      var j := CloseAt(a, tag, 1);
      CloseAtAppend(a, b, tag, 1);
      assert (a + b)[0] == a[0];
      assert (a + b)[1..j] == a[1..j];
      assert (a + b)[j + 1..] == a[j + 1..] + b;
      ElementsAppend(a[j + 1..], b, tag);
    } else {
      assert (a + b)[0] == a[0];
      assert (a + b)[1..] == a[1..] + b;
      ElementsAppend(a[1..], b, tag);
    }
  }

  /** Markup that opens no `tag` element holds none and is closed. */
  lemma {:induction false} ElementsNone(x: seq<Tok>, tag: string)
    requires NoOpen(x, tag)
    ensures Elements(x, tag) == [] && ClosedFor(x, tag)
    decreases |x|
  {
    if |x| > 0 {
      assert !OpensTag(x[0], tag);
      assert NoOpen(x[1..], tag) by {
        assert forall k :: 0 <= k < |x| - 1 ==> x[1..][k] == x[k + 1];
      }
      ElementsNone(x[1..], tag);
    }
  }

  /** A `tag` element whose body holds no `</tag>` reads back as itself. */
  lemma ElementsSame(tag: string, attrs: Attrs, body: seq<Tok>)
    requires NoClose(body, tag)
    ensures Elements(Wrap(tag, attrs, body), tag) == [Elem(attrs, body)]
    ensures ClosedFor(Wrap(tag, attrs, body), tag)
  {
    var s := Wrap(tag, attrs, body);
    var j := CloseAt(s, tag, 1);
    assert s[|body| + 1] == Close(tag);
    assert forall k :: 1 <= k < |body| + 1 ==> s[k] == body[k - 1];
    assert j == |body| + 1;
    assert s[1..j] == body;
    assert s[j + 1..] == [];
  }

  /** An element of another tag reads as its body. */
  lemma ElementsOther(outer: string, attrs: Attrs, body: seq<Tok>, tag: string)
    requires outer != tag && ClosedFor(body, tag)
    ensures Elements(Wrap(outer, attrs, body), tag) == Elements(body, tag)
    ensures ClosedFor(Wrap(outer, attrs, body), tag)
  {
    var w := Wrap(outer, attrs, body);
    ElementsNone([Close(outer)], tag);
    ElementsAppend(body, [Close(outer)], tag);
    assert w[0] == Open(outer, attrs) && w[1..] == body + [Close(outer)];
    assert Elements(body, tag) + [] == Elements(body, tag);
  }

  /** Elements of one tag written one after another. */
  function WrapAll(tag: string, elems: seq<Elem>): (r: seq<Tok>)
    decreases |elems|
  {
    if |elems| == 0 then [] else Wrap(tag, elems[0].attrs, elems[0].body) + WrapAll(tag, elems[1..])
  }

  predicate BodiesClosed(elems: seq<Elem>, tag: string) {
    forall k :: 0 <= k < |elems| ==> NoClose(elems[k].body, tag)
  }

  /** A run of elements reads back as exactly those elements, in order. */
  lemma {:induction false} ElementsWrapAll(tag: string, elems: seq<Elem>)
    requires BodiesClosed(elems, tag)
    ensures Elements(WrapAll(tag, elems), tag) == elems
    ensures ClosedFor(WrapAll(tag, elems), tag)
    decreases |elems|
  {
    if |elems| > 0 {
      var e := elems[0];
      assert NoClose(e.body, tag);
      assert BodiesClosed(elems[1..], tag) by {
        assert forall k :: 0 <= k < |elems| - 1 ==> elems[1..][k] == elems[k + 1];
      }
      ElementsSame(tag, e.attrs, e.body);
      ElementsWrapAll(tag, elems[1..]);
      ElementsAppend(Wrap(tag, e.attrs, e.body), WrapAll(tag, elems[1..]), tag);
      assert Elem(e.attrs, e.body) == e;
      assert elems == [e] + elems[1..];
    }
  }

  lemma NoOpenAppend(a: seq<Tok>, b: seq<Tok>, tag: string)
    ensures NoOpen(a + b, tag) <==> NoOpen(a, tag) && NoOpen(b, tag)
  {
    if NoOpen(a, tag) && NoOpen(b, tag) {
      forall k | 0 <= k < |a + b|
        ensures !OpensTag((a + b)[k], tag)
      {
        if k >= |a| {
          assert (a + b)[k] == b[k - |a|];
        }
      }
    }
    if NoOpen(a + b, tag) {
      assert forall k :: 0 <= k < |a| ==> (a + b)[k] == a[k];
      assert forall k :: 0 <= k < |b| ==> (a + b)[|a| + k] == b[k];
    }
  }

  lemma NoCloseAppend(a: seq<Tok>, b: seq<Tok>, tag: string)
    ensures NoClose(a + b, tag) <==> NoClose(a, tag) && NoClose(b, tag)
  {
    if NoClose(a, tag) && NoClose(b, tag) {
      forall k | 0 <= k < |a + b|
        ensures (a + b)[k] != Close(tag)
      {
        if k >= |a| {
          assert (a + b)[k] == b[k - |a|];
        }
      }
    }
    if NoClose(a + b, tag) {
      assert forall k :: 0 <= k < |a| ==> (a + b)[k] == a[k];
      assert forall k :: 0 <= k < |b| ==> (a + b)[|a| + k] == b[k];
    }
  }

  predicate BodiesOpenFree(elems: seq<Elem>, tag: string) {
    forall k :: 0 <= k < |elems| ==> NoOpen(elems[k].body, tag)
  }

  predicate BodiesCloseFree(elems: seq<Elem>, tag: string) {
    forall k :: 0 <= k < |elems| ==> NoClose(elems[k].body, tag)
  }

  /** Elements of another tag whose bodies open no `tag` element open none either. */
  lemma {:induction false} WrapAllNoOpen(outer: string, elems: seq<Elem>, tag: string)
    requires outer != tag && BodiesOpenFree(elems, tag)
    ensures NoOpen(WrapAll(outer, elems), tag)
    decreases |elems|
  {
    if |elems| > 0 {
      WrapAllNoOpen(outer, elems[1..], tag);
      var w := Wrap(outer, elems[0].attrs, elems[0].body);
      NoOpenAppend([Open(outer, elems[0].attrs)] + elems[0].body, [Close(outer)], tag);
      NoOpenAppend([Open(outer, elems[0].attrs)], elems[0].body, tag);
      NoOpenAppend(w, WrapAll(outer, elems[1..]), tag);
    }
  }

  /** Likewise for closing tags. */
  lemma {:induction false} WrapAllNoClose(outer: string, elems: seq<Elem>, tag: string)
    requires outer != tag && BodiesCloseFree(elems, tag)
    ensures NoClose(WrapAll(outer, elems), tag)
    decreases |elems|
  {
    if |elems| > 0 {
      WrapAllNoClose(outer, elems[1..], tag);
      var w := Wrap(outer, elems[0].attrs, elems[0].body);
      NoCloseAppend([Open(outer, elems[0].attrs)] + elems[0].body, [Close(outer)], tag);
      NoCloseAppend([Open(outer, elems[0].attrs)], elems[0].body, tag);
      NoCloseAppend(w, WrapAll(outer, elems[1..]), tag);
    }
  }

  /** Text tokens only: what a serialiser writes for a plain value. */
  predicate PlainText(toks: seq<Tok>) {
    forall k :: 0 <= k < |toks| ==> toks[k].Chars?
  }

  lemma PlainTextFree(toks: seq<Tok>, tag: string)
    requires PlainText(toks)
    ensures NoOpen(toks, tag) && NoClose(toks, tag)
  {
  }

  /** The runs of text in a stream, in order: what a reader sees of it, blocks aside. */
  function Texts(toks: seq<Tok>): seq<string>
    decreases |toks|
  {
    if |toks| == 0 then []
    else (if toks[0].Chars? then [toks[0].text] else []) + Texts(toks[1..])
  }

  lemma {:induction false} TextsAppend(a: seq<Tok>, b: seq<Tok>)
    ensures Texts(a + b) == Texts(a) + Texts(b)
    decreases |a|
  {
    if |a| == 0 {
      assert a + b == b;
    } else {
      assert (a + b)[0] == a[0];
      assert (a + b)[1..] == a[1..] + b;
      TextsAppend(a[1..], b);
    }
  }

  /** A wrapped element shows the text of its body. */
  lemma TextsWrap(tag: string, attrs: Attrs, body: seq<Tok>)
    ensures Texts(Wrap(tag, attrs, body)) == Texts(body)
  {
    TextsAppend([Open(tag, attrs)], body + [Close(tag)]);
    TextsAppend(body, [Close(tag)]);
    assert Wrap(tag, attrs, body) == [Open(tag, attrs)] + (body + [Close(tag)]);
  }

  /** The bodies of a run of elements. */
  function Bodies(elems: seq<Elem>): (r: seq<seq<Tok>>)
    ensures |r| == |elems|
    ensures forall k :: 0 <= k < |r| ==> r[k] == elems[k].body
  {
    seq(|elems|, k requires 0 <= k < |elems| => elems[k].body)
  }

  /** The texts of several streams, one stream after another. */
  function TextsOf(fs: seq<seq<Tok>>): seq<string>
    decreases |fs|
  {
    if |fs| == 0 then [] else Texts(fs[0]) + TextsOf(fs[1..])
  }

  /** A run of elements shows the texts of their bodies, in order. */
  lemma {:induction false} TextsWrapAll(tag: string, elems: seq<Elem>)
    ensures Texts(WrapAll(tag, elems)) == TextsOf(Bodies(elems))
    decreases |elems|
  {
    if |elems| > 0 {
      TextsAppend(Wrap(tag, elems[0].attrs, elems[0].body), WrapAll(tag, elems[1..]));
      TextsWrap(tag, elems[0].attrs, elems[0].body);
      TextsWrapAll(tag, elems[1..]);
      assert Bodies(elems)[1..] == Bodies(elems[1..]);
    }
  }

  /** The attributes of every `tag` opening in a stream, in order. */
  function Opens(toks: seq<Tok>, tag: string): seq<Attrs>
    decreases |toks|
  {
    if |toks| == 0 then []
    else (if OpensTag(toks[0], tag) then [toks[0].attrs] else []) + Opens(toks[1..], tag)
  }

  lemma {:induction false} OpensAppend(a: seq<Tok>, b: seq<Tok>, tag: string)
    ensures Opens(a + b, tag) == Opens(a, tag) + Opens(b, tag)
    decreases |a|
  {
    if |a| == 0 {
      assert a + b == b;
    } else {
      assert (a + b)[0] == a[0];
      assert (a + b)[1..] == a[1..] + b;
      OpensAppend(a[1..], b, tag);
    }
  }

  /** An element opens its own tag and then whatever its body opens. */
  lemma OpensWrap(outer: string, attrs: Attrs, body: seq<Tok>, tag: string)
    ensures Opens(Wrap(outer, attrs, body), tag) == (if outer == tag then [attrs] else []) + Opens(body, tag)
  {
    OpensAppend([Open(outer, attrs)], body + [Close(outer)], tag);
    OpensAppend(body, [Close(outer)], tag);
    assert Wrap(outer, attrs, body) == [Open(outer, attrs)] + (body + [Close(outer)]);
  }
}
