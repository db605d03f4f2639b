/** HTML escaping of notification bodies (`escape_html` in notify_send.py).

    The source performs three successive `str.replace` passes: `&` first, then
    `<`, then `>`.  For a one-character pattern `str.replace` substitutes every
    occurrence of that character independently, which is what `ReplaceAll`
    models.  `EscapeSpec` is an independent single-pass definition (each input
    character mapped to its entity), and `Unescape` is its inverse; the lemmas
    below connect the three. */
module Html {

  /** Number of occurrences of `c` in `s`. */
  function Count(s: string, c: char): nat
  {
    if |s| == 0 then 0 else (if s[0] == c then 1 else 0) + Count(s[1..], c)
  }

  /** `s.replace(c, rep)` for a one-character pattern `c`. */
  function ReplaceAll(s: string, c: char, rep: string): string
  {
    if |s| == 0 then ""
    else (if s[0] == c then rep else [s[0]]) + ReplaceAll(s[1..], c, rep)
  }

  /** Replacing a character that does not occur changes nothing. */
  lemma {:induction false} ReplaceAllAbsent(s: string, c: char, rep: string)
    requires c !in s
    ensures ReplaceAll(s, c, rep) == s
  {
    if |s| > 0 {
      assert s[0] != c;
      ReplaceAllAbsent(s[1..], c, rep);
      assert s == [s[0]] + s[1..];
    }
  }

  /** Each occurrence of `c` grows the text by `|rep| - 1` characters. */
  lemma {:induction false} ReplaceAllLength(s: string, c: char, rep: string)
    ensures |ReplaceAll(s, c, rep)| == |s| + Count(s, c) * (|rep| - 1)
  {
    if |s| > 0 {
      ReplaceAllLength(s[1..], c, rep);
      var k := Count(s[1..], c);
      if s[0] == c {
        assert Count(s, c) * (|rep| - 1) == (|rep| - 1) + k * (|rep| - 1);
      } else {
        assert Count(s, c) == k;
      }
    }
  }

  lemma ReplaceAllSingle(x: char, c: char, rep: string)
    ensures ReplaceAll([x], c, rep) == if x == c then rep else [x]
  {
    assert [x][1..] == "";
  }

  lemma {:induction false} ReplaceAllConcat(a: string, b: string, c: char, rep: string)
    ensures ReplaceAll(a + b, c, rep) == ReplaceAll(a, c, rep) + ReplaceAll(b, c, rep)
  {
    if |a| == 0 {
      assert a + b == b;
    } else {
      assert (a + b)[0] == a[0];
      assert (a + b)[1..] == a[1..] + b;
      ReplaceAllConcat(a[1..], b, c, rep);
    }
  }

  /** `escape_html(message)`: the three replacements, in the source's order. */
  function EscapeHtml(s: string): string
  {
    var amp := ReplaceAll(s, '&', "&amp;");
    var lt := ReplaceAll(amp, '<', "&lt;");
    ReplaceAll(lt, '>', "&gt;")
  }

  /** The entity (or the character itself) that one character escapes to. */
  function EscapeChar(c: char): string
  {
    match c
    case '&' => "&amp;"
    case '<' => "&lt;"
    case '>' => "&gt;"
    case _ => [c]
  }

  /** Reference definition: every character escaped independently, in one pass. */
  function EscapeSpec(s: string): string
  {
    if |s| == 0 then "" else EscapeChar(s[0]) + EscapeSpec(s[1..])
  }

  lemma {:induction false} EscapeHtmlConcat(a: string, b: string)
    ensures EscapeHtml(a + b) == EscapeHtml(a) + EscapeHtml(b)
  {
    var a1, b1 := ReplaceAll(a, '&', "&amp;"), ReplaceAll(b, '&', "&amp;");
    ReplaceAllConcat(a, b, '&', "&amp;");
    var a2, b2 := ReplaceAll(a1, '<', "&lt;"), ReplaceAll(b1, '<', "&lt;");
    ReplaceAllConcat(a1, b1, '<', "&lt;");
    ReplaceAllConcat(a2, b2, '>', "&gt;");
  }

  /** A one-character text is escaped to that character's entity. */
  lemma EscapeHtmlOneChar(c: char)
    ensures EscapeHtml([c]) == EscapeChar(c)
  {
    var amp := ReplaceAll([c], '&', "&amp;");
    ReplaceAllSingle(c, '&', "&amp;");
    if c == '&' {
      EntityUntouched(amp, '<', "&lt;");
      EntityUntouched(amp, '>', "&gt;");
    } else {
      var lt := ReplaceAll(amp, '<', "&lt;");
      ReplaceAllSingle(c, '<', "&lt;");
      if c == '<' {
        EntityUntouched(lt, '>', "&gt;");
      } else {
        ReplaceAllSingle(c, '>', "&gt;");
      }
    }
  }

  /** A later pass leaves an entity inserted by an earlier pass alone. */
  lemma EntityUntouched(e: string, c: char, rep: string)
    requires e == "&amp;" || (e == "&lt;" && c == '>')
    requires c == '<' || c == '>'
    ensures ReplaceAll(e, c, rep) == e
  {
    ReplaceAllAbsent(e, c, rep);
  }

  /** The three ordered passes agree with the one-pass reference: no entity
      inserted by an earlier pass is touched by a later one. */
  lemma {:induction false} EscapeHtmlIsEscapeSpec(s: string)
    ensures EscapeHtml(s) == EscapeSpec(s)
  {
    if |s| == 0 {
    } else {
      assert s == [s[0]] + s[1..];
      EscapeHtmlConcat([s[0]], s[1..]);
      EscapeHtmlOneChar(s[0]);
      EscapeHtmlIsEscapeSpec(s[1..]);
    }
  }

  /** A string with no `&`, `<` or `>` is left as it is. */
  lemma EscapeHtmlKeepsPlainText(s: string)
    requires '&' !in s && '<' !in s && '>' !in s
    ensures EscapeHtml(s) == s
  {
    ReplaceAllAbsent(s, '&', "&amp;");
    ReplaceAllAbsent(s, '<', "&lt;");
    ReplaceAllAbsent(s, '>', "&gt;");
  }

  /** Characters other than `&`, `<`, `>` (quotes among them) are never touched:
      escaping a concatenation with plain text keeps that text verbatim. */
  lemma EscapeHtmlAroundPlainText(a: string, plain: string, b: string)
    requires '&' !in plain && '<' !in plain && '>' !in plain
    ensures EscapeHtml(a + plain + b) == EscapeHtml(a) + plain + EscapeHtml(b)
  {
    EscapeHtmlConcat(a + plain, b);
    EscapeHtmlConcat(a, plain);
    EscapeHtmlKeepsPlainText(plain);
  }

  lemma {:induction false} EscapeSpecNoAngleBrackets(s: string)
    ensures '<' !in EscapeSpec(s) && '>' !in EscapeSpec(s)
  {
    if |s| > 0 {
      EscapeSpecNoAngleBrackets(s[1..]);
    }
  }

  /** The escaped text holds no raw `<` or `>`. */
  lemma NoAngleBracketsAfterEscape(s: string)
    ensures '<' !in EscapeHtml(s) && '>' !in EscapeHtml(s)
  {
    EscapeHtmlIsEscapeSpec(s);
    EscapeSpecNoAngleBrackets(s);
  }

  lemma {:induction false} EscapeSpecLength(s: string)
    ensures |EscapeSpec(s)| == |s| + 4 * Count(s, '&') + 3 * Count(s, '<') + 3 * Count(s, '>')
  {
    if |s| > 0 {
      EscapeSpecLength(s[1..]);
    }
  }

  /** Each `&` grows the text by four characters, each `<` and `>` by three. */
  lemma EscapeHtmlLength(s: string)
    ensures |EscapeHtml(s)| == |s| + 4 * Count(s, '&') + 3 * Count(s, '<') + 3 * Count(s, '>')
  {
    EscapeHtmlIsEscapeSpec(s);
    EscapeSpecLength(s);
  }

  /** Decoding of the three entities; any other character is copied. */
  function Unescape(s: string): string
    decreases |s|
  {
    if |s| == 0 then ""
    else if |s| >= 5 && s[..5] == "&amp;" then "&" + Unescape(s[5..])
    else if |s| >= 4 && s[..4] == "&lt;" then "<" + Unescape(s[4..])
    else if |s| >= 4 && s[..4] == "&gt;" then ">" + Unescape(s[4..])
    else [s[0]] + Unescape(s[1..])
  }

  lemma UnescapeEntity(e: string, rest: string, c: char)
    requires |e| >= 4
    requires e == EscapeChar(c) && c in "&<>"
    ensures Unescape(e + rest) == [c] + Unescape(rest)
  {
    var s := e + rest;
    assert s[..|e|] == e;
    assert s[|e|..] == rest;
    if c == '&' {
      assert s[..5] == "&amp;";
    } else if c == '<' {
      assert s[1] == 'l';
      assert s[..4] == "&lt;";
    } else {
      assert s[1] == 'g';
      assert s[..4] == "&gt;";
    }
  }

  lemma UnescapeOther(c: char, rest: string)
    requires c != '&'
    ensures Unescape([c] + rest) == [c] + Unescape(rest)
  {
    var t := [c] + rest;
    assert t[0] == c && t[1..] == rest;
  }

  lemma {:induction false} UnescapeEscapeSpec(s: string)
    ensures Unescape(EscapeSpec(s)) == s
  {
    if |s| > 0 {
      var c := s[0];
      var rest := EscapeSpec(s[1..]);
      assert EscapeSpec(s) == EscapeChar(c) + rest;
      UnescapeEscapeSpec(s[1..]);
      if c == '&' || c == '<' || c == '>' {
        UnescapeEntity(EscapeChar(c), rest, c);
      } else {
        UnescapeOther(c, rest);
      }
      assert s == [c] + s[1..];
    }
  }

  /** Escaping loses nothing: decoding the three entities gives back the
      original text, so inserted entities are never escaped a second time. */
  lemma UnescapeEscapeHtml(s: string)
    ensures Unescape(EscapeHtml(s)) == s
  {
    EscapeHtmlIsEscapeSpec(s);
    UnescapeEscapeSpec(s);
  }

  /** The example the project's tests check: escaping "< > &" gives
      "&lt; &gt; &amp;".  The literal comes in through a precondition: with
      `EscapeHtml` applied to the literal itself the solver keeps unfolding
      `ReplaceAll` on constant strings, whereas the one-pass `EscapeSpec`
      computes cheaply. */
  lemma EscapeHtmlExample(s: string)
    requires s == "< > &"
    ensures EscapeHtml(s) == "&lt; &gt; &amp;"
  {
    EscapeHtmlIsEscapeSpec(s);
    EscapeSpecExampleValue();
  }

  // The one-pass definition evaluated on the literals of the examples below.

  lemma EscapeSpecExampleValue()
    ensures EscapeSpec("< > &") == "&lt; &gt; &amp;"
  {
  }

  lemma EscapeSpecAngleBracketsValue()
    ensures EscapeSpec("<>") == "&lt;&gt;"
  {
  }

  lemma EscapeSpecEntityValue()
    ensures EscapeSpec("&amp;") == "&amp;amp;"
  {
  }

  /** `"<>"` escapes to `"&lt;&gt;"`. */
  lemma EscapeHtmlAngleBrackets(s: string)
    requires s == "<>"
    ensures EscapeHtml(s) == "&lt;&gt;"
  {
    EscapeHtmlIsEscapeSpec(s);
    EscapeSpecAngleBracketsValue();
  }

  /** Escaping is not idempotent: an entity already in the input is escaped
      again, because `&` is replaced first.  (The literal is passed in as for
      `EscapeHtmlExample`.) */
  lemma EscapeHtmlNotIdempotent(s: string)
    requires s == "&amp;"
    ensures EscapeHtml(s) == "&amp;amp;"
    ensures EscapeHtml(s) != s
  {
    EscapeHtmlIsEscapeSpec(s);
    EscapeSpecEntityValue();
  }
}
