/** How the Screenwriter Library's client writes text into its markup with
    `esc` and how the browser reads it back: from a double-quoted attribute
    (`data-tag="…"`, `value="…"`) and from a text input. `esc` assigns the
    text to a `div`'s `textContent` and reads back `innerHTML`, which
    escapes `&`, `<`, `>` and the no-break space but not `"`. */
module Html {

  /** The markup `innerHTML` gives one character of a text node. */
  function EscChar(c: char): (r: string)
    ensures r != [] && '"' !in r <==> c != '"'
    ensures r == [c] <==> c != '&' && c != '<' && c != '>' && c != '\U{00A0}'
  {
    if c == '&' then "&amp;"
    else if c == '<' then "&lt;"
    else if c == '>' then "&gt;"
    else if c == '\U{00A0}' then "&nbsp;"
    else [c]
  }

  /** `esc` (app.js): the text as the markup of a text node. */
  function Escape(s: string): (r: string)
    ensures |r| >= |s|
    ensures '"' in r <==> '"' in s
    ensures (forall k | 0 <= k < |r| :: r[k] != '<') && (forall k | 0 <= k < |r| :: r[k] != '>')
  {
    if s == [] then "" else EscChar(s[0]) + Escape(s[1..])
  }

  /** The character references `esc` writes, decoded as the HTML parser
      decodes them; every other character is kept. */
  function Unescape(s: string): string
    decreases |s|
  {
    if s == [] then ""
    else if s[0] != '&' then [s[0]] + Unescape(s[1..])
    else if |s| >= 5 && s[1..5] == "amp;" then "&" + Unescape(s[5..])
    else if |s| >= 4 && s[1..4] == "lt;" then "<" + Unescape(s[4..])
    else if |s| >= 4 && s[1..4] == "gt;" then ">" + Unescape(s[4..])
    else if |s| >= 6 && s[1..6] == "nbsp;" then "\U{00A0}" + Unescape(s[6..])
    else "&" + Unescape(s[1..])
  }

  /** Decoding undoes one escaped character. */
  lemma UnescapeChar(c: char, t: string)
    ensures Unescape(EscChar(c) + t) == [c] + Unescape(t)
  {
    var x := EscChar(c) + t;
    if c == '&' {
      assert x[1..5] == "amp;" && x[5..] == t;
    } else if c == '<' {
      UnescapeLt(t);
    } else if c == '>' {
      UnescapeGt(t);
    } else if c == '\U{00A0}' {
      UnescapeNbsp(t);
    } else {
      assert x[0] == c && x[1..] == t;
    }
  }

  lemma UnescapeLt(t: string)
    ensures Unescape("&lt;" + t) == "<" + Unescape(t)
  {
    var x := "&lt;" + t;
    assert x[1] == 'l' && x[1..4] == "lt;" && x[4..] == t;
  }

  lemma UnescapeGt(t: string)
    ensures Unescape("&gt;" + t) == ">" + Unescape(t)
  {
    var x := "&gt;" + t;
    assert x[1] == 'g' && x[1..4] == "gt;" && x[4..] == t;
  }

  lemma UnescapeNbsp(t: string)
    ensures Unescape("&nbsp;" + t) == "\U{00A0}" + Unescape(t)
  {
    var x := "&nbsp;" + t;
    assert x[1] == 'n' && x[1..6] == "nbsp;" && x[6..] == t;
  }

  /** Decoding the markup of a text gives the text back. */
  lemma {:induction false} UnescapeEscape(s: string)
    ensures Unescape(Escape(s)) == s
  {
    if s != [] {
      UnescapeEscape(s[1..]);
      UnescapeChar(s[0], Escape(s[1..]));
    }
  }

  /** The text before the first `"`: where the HTML parser ends a
      double-quoted attribute value. */
  function BeforeQuote(s: string): (r: string)
    ensures |r| <= |s| && r == s[..|r|]
    ensures '"' !in r
    ensures |r| < |s| ==> s[|r|] == '"'
    ensures '"' !in s ==> r == s
  {
    if s == [] || s[0] == '"' then "" else [s[0]] + BeforeQuote(s[1..])
  }

  lemma {:induction false} BeforeQuoteAppend(x: string, y: string)
    requires '"' !in x
    ensures BeforeQuote(x + y) == x + BeforeQuote(y)
  {
    if x != [] {
      assert (x + y)[0] == x[0] && (x + y)[1..] == x[1..] + y;
      BeforeQuoteAppend(x[1..], y);
    } else {
      assert x + y == y;
    }
  }

  /** The markup of a text ends where the text has its first `"`. */
  lemma {:induction false} BeforeQuoteEscape(s: string, rest: string)
    ensures BeforeQuote(Escape(s) + "\"" + rest) == Escape(BeforeQuote(s))
  {
    if s == [] {
      assert Escape(s) + "\"" + rest == "\"" + rest;
    } else if s[0] == '"' {
      assert Escape(s) + "\"" + rest == "\"" + (Escape(s[1..]) + "\"" + rest);
    } else {
      var e := EscChar(s[0]);
      assert Escape(s) + "\"" + rest == e + (Escape(s[1..]) + "\"" + rest);
      BeforeQuoteAppend(e, Escape(s[1..]) + "\"" + rest);
      BeforeQuoteEscape(s[1..], rest);
      assert BeforeQuote(s) == [s[0]] + BeforeQuote(s[1..]);
    }
  }

  /** The value of a double-quoted attribute whose text starts at `raw`:
      the text up to the closing `"`, with its character references
      decoded. */
  function AttrValue(raw: string): string {
    Unescape(BeforeQuote(raw))
  }

  /** `attr="${esc(s)}"`, followed by any further markup, reads back as `s`
      up to its first `"`, since `esc` leaves `"` as it is. */
  lemma EscapedAttr(s: string, rest: string)
    ensures AttrValue(Escape(s) + "\"" + rest) == BeforeQuote(s)
  {
    BeforeQuoteEscape(s, rest);
    UnescapeEscape(BeforeQuote(s));
  }

  /** `btn.dataset.tag` of a button written as `data-tag="${esc(s)}"`. */
  function DataTag(s: string): (r: string)
    ensures r == BeforeQuote(s)
  {
    EscapedAttr(s, ">");
    AttrValue(Escape(s) + "\"" + ">")
  }

  /** Line feeds and carriage returns removed, the value sanitization of a
      text input. */
  function StripNewlines(s: string): (r: string)
    ensures forall c :: c in r <==> c in s && c != '\n' && c != '\r'
    ensures |r| <= |s|
  {
    if s == [] then ""
    else if s[0] == '\n' || s[0] == '\r' then StripNewlines(s[1..])
    else [s[0]] + StripNewlines(s[1..])
  }

  lemma {:induction false} StripNewlinesNone(s: string)
    requires '\n' !in s && '\r' !in s
    ensures StripNewlines(s) == s
  {
    if s != [] {
      StripNewlinesNone(s[1..]);
    }
  }

  /** The value of an `<input value="${esc(s)}">`: `s` up to its first `"`,
      without line breaks. */
  function InputValue(s: string): (r: string)
    ensures r == StripNewlines(BeforeQuote(s))
    ensures '"' !in r && '\n' !in r && '\r' !in r
  {
    EscapedAttr(s, " autocomplete=\"off\">");
    StripNewlines(AttrValue(Escape(s) + "\"" + " autocomplete=\"off\">"))
  }

  /** The value of `<textarea>${esc(s)}</textarea>`: the text itself, since
      `esc` escapes the `<` that could end the element and the parser
      decodes the references. */
  function TextareaValue(s: string): (r: string)
    ensures r == s
  {
    UnescapeEscape(s);
    Unescape(Escape(s))
  }

  /** Text that reads back unchanged from an input's `value` attribute:
      no `"` and no line break. */
  predicate InputSafe(s: string) {
    '"' !in s && '\n' !in s && '\r' !in s
  }

  /** An input shows such a text exactly as written. */
  lemma InputValueSafe(s: string)
    requires InputSafe(s)
    ensures InputValue(s) == s
  {
    StripNewlinesNone(s);
  }

  /** A text with a `"` is cut at it: `Say "hi"` shows as `Say `. */
  lemma InputValueQuoted()
    ensures InputValue("Say \"hi\"") == "Say "
  {
    var s := "Say \"hi\"";
    assert s == "Say " + "\"hi\"";
    BeforeQuoteAppend("Say ", "\"hi\"");
    StripNewlinesNone("Say ");
  }
}
