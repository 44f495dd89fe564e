/**
 * The render-time text helpers: `escape_html`, `render_inline`, `nl2br_filter`,
 * `render_html` and `initials` (app.py:42-61, 109-113).
 *
 * Each helper is written the way the source computes it (chained `str.replace`
 * passes) and is proved equal to a one-pass reference that names what every
 * input character becomes; the safety properties are proved of the reference.
 */
module Sanitizer {
  import opened Wrappers
  import opened Strings

  // ---------- reference escaping ----------

  /** What one character becomes in escaped text. */
  function EscChar(c: char): string {
    if c == '&' then "&amp;"
    else if c == '<' then "&lt;"
    else if c == '>' then "&gt;"
    else if c == '"' then "&quot;"
    else if c == '\'' then "&#39;"
    else [c]
  }

  /** Every character replaced by its escape, in one left-to-right pass. */
  function EscapeChars(s: string): string {
    if s == [] then [] else EscChar(s[0]) + EscapeChars(s[1..])
  }

  predicate IsMeta(c: char) {
    c == '&' || c == '<' || c == '>' || c == '"' || c == '\''
  }

  // ---------- escape_html ----------

  /** The five `replace` passes of `escape_html`, ampersand first. */
  function EscapePasses(s: string): string {
    Replace(Replace(Replace(Replace(Replace(s, "&", "&amp;"), "<", "&lt;"), ">", "&gt;"), "\"", "&quot;"), "'", "&#39;")
  }

  /** `escape_html(text)`: "" for None or "", the five passes otherwise. */
  function EscapeHtml(text: Option<string>): string {
    if text == None || text == Some("") then "" else EscapePasses(text.value)
  }

  lemma EscapePassesAppend(a: string, b: string)
    ensures EscapePasses(a + b) == EscapePasses(a) + EscapePasses(b)
  {
    var a1, b1 := Replace(a, "&", "&amp;"), Replace(b, "&", "&amp;");
    ReplaceCharAppend(a, b, '&', "&amp;");
    var a2, b2 := Replace(a1, "<", "&lt;"), Replace(b1, "<", "&lt;");
    ReplaceCharAppend(a1, b1, '<', "&lt;");
    var a3, b3 := Replace(a2, ">", "&gt;"), Replace(b2, ">", "&gt;");
    ReplaceCharAppend(a2, b2, '>', "&gt;");
    var a4, b4 := Replace(a3, "\"", "&quot;"), Replace(b3, "\"", "&quot;");
    ReplaceCharAppend(a3, b3, '"', "&quot;");
    ReplaceCharAppend(a4, b4, '\'', "&#39;");
  }

  /** The text one pass inserts is left alone by the later passes. */
  lemma EscapePassesChar(c: char)
    ensures EscapePasses([c]) == EscChar(c)
  {
    if c == '&' { EscapeAmpersand(); }
    else if c == '<' { EscapeLess(); }
    else if c == '>' { EscapeGreater(); }
    else if c == '"' { EscapeQuote(); }
    else if c == '\'' { EscapeApostrophe(); }
    else { EscapeOther(c); }
  }

  lemma EscapeAmpersand()
    ensures EscapePasses("&") == "&amp;"
  {
    var amp := "&amp;";
    ReplaceWhole('&', amp);
    var s1 := Replace("&", "&", amp);
    ReplaceAbsent(amp, "<", "&lt;");
    var s2 := Replace(s1, "<", "&lt;");
    assert s2 == amp;
    ReplaceAbsent(amp, ">", "&gt;");
    var s3 := Replace(s2, ">", "&gt;");
    assert s3 == amp;
    ReplaceAbsent(amp, "\"", "&quot;");
    var s4 := Replace(s3, "\"", "&quot;");
    assert s4 == amp;
    ReplaceAbsent(amp, "'", "&#39;");
  }

  lemma EscapeLess()
    ensures EscapePasses("<") == "&lt;"
  {
    ReplaceAbsent("<", "&", "&amp;");
    ReplaceWhole('<', "&lt;");
    ReplaceAbsent("&lt;", ">", "&gt;");
    ReplaceAbsent("&lt;", "\"", "&quot;");
    ReplaceAbsent("&lt;", "'", "&#39;");
  }

  lemma EscapeGreater()
    ensures EscapePasses(">") == "&gt;"
  {
    ReplaceAbsent(">", "&", "&amp;");
    ReplaceAbsent(">", "<", "&lt;");
    ReplaceWhole('>', "&gt;");
    ReplaceAbsent("&gt;", "\"", "&quot;");
    ReplaceAbsent("&gt;", "'", "&#39;");
  }

  lemma EscapeQuote()
    ensures EscapePasses("\"") == "&quot;"
  {
    ReplaceAbsent("\"", "&", "&amp;");
    ReplaceAbsent("\"", "<", "&lt;");
    ReplaceAbsent("\"", ">", "&gt;");
    ReplaceWhole('"', "&quot;");
    ReplaceAbsent("&quot;", "'", "&#39;");
  }

  lemma EscapeApostrophe()
    ensures EscapePasses("'") == "&#39;"
  {
    ReplaceAbsent("'", "&", "&amp;");
    ReplaceAbsent("'", "<", "&lt;");
    ReplaceAbsent("'", ">", "&gt;");
    ReplaceAbsent("'", "\"", "&quot;");
    ReplaceWhole('\'', "&#39;");
  }

  lemma EscapeOther(c: char)
    requires !IsMeta(c)
    ensures EscapePasses([c]) == [c]
  {
    ReplaceAbsent([c], "&", "&amp;");
    ReplaceAbsent([c], "<", "&lt;");
    ReplaceAbsent([c], ">", "&gt;");
    ReplaceAbsent([c], "\"", "&quot;");
    ReplaceAbsent([c], "'", "&#39;");
  }

  /** `escape_html` is the one-pass character-wise escaping. */
  lemma {:induction false} EscapeHtmlIsCharwise(s: string)
    ensures EscapeHtml(Some(s)) == EscapeChars(s)
    decreases |s|
  {
    if s != [] {
      if s[1..] != [] {
        EscapeHtmlIsCharwise(s[1..]);
      }
      assert s == [s[0]] + s[1..];
      EscapePassesAppend([s[0]], s[1..]);
      EscapePassesChar(s[0]);
      assert EscapePasses([]) == [];
    }
  }

  lemma {:induction false} EscapeCharsAppend(a: string, b: string)
    ensures EscapeChars(a + b) == EscapeChars(a) + EscapeChars(b)
    decreases |a|
  {
    if a == [] {
      assert a + b == b;
    } else {
      assert (a + b)[1..] == a[1..] + b;
      EscapeCharsAppend(a[1..], b);
    }
  }

  /** No raw `<`, `>`, `"` or `'` survives escaping. */
  predicate NoRawMarkup(s: string) {
    forall i :: 0 <= i < |s| ==> s[i] != '<' && s[i] != '>' && s[i] != '"' && s[i] != '\''
  }

  /** The escaped text has one of the five entities at position `i`. */
  predicate EntityAt(s: string, i: nat) {
    || StartsAt(s, i, "&amp;") || StartsAt(s, i, "&lt;") || StartsAt(s, i, "&gt;")
    || StartsAt(s, i, "&quot;") || StartsAt(s, i, "&#39;")
  }

  predicate AmpersandsStartEntities(s: string) {
    forall i :: 0 <= i < |s| && s[i] == '&' ==> EntityAt(s, i)
  }

  lemma EntityAtLeft(a: string, b: string, i: nat)
    requires EntityAt(a, i)
    ensures EntityAt(a + b, i)
  {
    if StartsAt(a, i, "&amp;") { StartsAtLeft(a, b, i, "&amp;"); }
    else if StartsAt(a, i, "&lt;") { StartsAtLeft(a, b, i, "&lt;"); }
    else if StartsAt(a, i, "&gt;") { StartsAtLeft(a, b, i, "&gt;"); }
    else if StartsAt(a, i, "&quot;") { StartsAtLeft(a, b, i, "&quot;"); }
    else { StartsAtLeft(a, b, i, "&#39;"); }
  }

  lemma EntityAtRight(a: string, b: string, j: nat)
    requires EntityAt(b, j)
    ensures EntityAt(a + b, |a| + j)
  {
    if StartsAt(b, j, "&amp;") { StartsAtRight(a, b, j, "&amp;"); }
    else if StartsAt(b, j, "&lt;") { StartsAtRight(a, b, j, "&lt;"); }
    else if StartsAt(b, j, "&gt;") { StartsAtRight(a, b, j, "&gt;"); }
    else if StartsAt(b, j, "&quot;") { StartsAtRight(a, b, j, "&quot;"); }
    else { StartsAtRight(a, b, j, "&#39;"); }
  }

  lemma AmpersandsAppend(a: string, b: string)
    requires AmpersandsStartEntities(a) && AmpersandsStartEntities(b)
    ensures AmpersandsStartEntities(a + b)
  {
    forall i | 0 <= i < |a + b| && (a + b)[i] == '&' ensures EntityAt(a + b, i) {
      if i < |a| {
        assert a[i] == '&';
        EntityAtLeft(a, b, i);
      } else {
        assert b[i - |a|] == '&';
        EntityAtRight(a, b, i - |a|);
      }
    }
  }

  lemma {:induction false} EscapeCharsSafe(s: string)
    ensures NoRawMarkup(EscapeChars(s)) && AmpersandsStartEntities(EscapeChars(s))
    decreases |s|
  {
    if s != [] {
      EscapeCharsSafe(s[1..]);
      var e := EscChar(s[0]);
      assert StartsAt(e, 0, e);
      AmpersandsAppend(e, EscapeChars(s[1..]));
    }
  }

  /** The escaped text holds no raw `<`, `>`, `"` or `'`, and each `&` in it begins one of
      `&amp;`, `&lt;`, `&gt;`, `&quot;`, `&#39;`. */
  lemma EscapeHtmlSafe(text: Option<string>)
    ensures NoRawMarkup(EscapeHtml(text)) && AmpersandsStartEntities(EscapeHtml(text))
  {
    if text.Some? {
      EscapeHtmlIsCharwise(text.value);
      EscapeCharsSafe(text.value);
    }
  }

  /** Text with none of the five metacharacters comes back unchanged. */
  lemma {:induction false} EscapeHtmlPlain(s: string)
    requires forall i :: 0 <= i < |s| ==> !IsMeta(s[i])
    ensures EscapeHtml(Some(s)) == s
    decreases |s|
  {
    EscapeHtmlIsCharwise(s);
    if s != [] {
      EscapeHtmlPlain(s[1..]);
      EscapeHtmlIsCharwise(s[1..]);
    }
  }

  /** Decoding of the five entities: the inverse of escaping. */
  function Unescape(s: string): string
    decreases |s|
  {
    if s == [] then []
    else if s[0] != '&' then [s[0]] + Unescape(s[1..])
    else if StartsAt(s, 0, "&amp;") then "&" + Unescape(s[5..])
    else if StartsAt(s, 0, "&lt;") then "<" + Unescape(s[4..])
    else if StartsAt(s, 0, "&gt;") then ">" + Unescape(s[4..])
    else if StartsAt(s, 0, "&quot;") then "\"" + Unescape(s[6..])
    else if StartsAt(s, 0, "&#39;") then "'" + Unescape(s[5..])
    else [s[0]] + Unescape(s[1..])
  }

  lemma UnescapeEntity(c: char, rest: string)
    ensures Unescape(EscChar(c) + rest) == [c] + Unescape(rest)
  {
    var e := EscChar(c);
    var x := e + rest;
    assert x[..|e|] == e && x[|e|..] == rest;
    if IsMeta(c) {
      assert x[0] == '&';
      assert x[1] == e[1];
      assert StartsAt(x, 0, e);
      if c != '&' { assert !StartsAt(x, 0, "&amp;") by { assert x[1] != 'a'; } }
      if c != '<' { assert !StartsAt(x, 0, "&lt;") by { assert x[1] != 'l'; } }
      if c != '>' { assert !StartsAt(x, 0, "&gt;") by { assert x[1] != 'g'; } }
      if c != '"' { assert !StartsAt(x, 0, "&quot;") by { assert x[1] != 'q'; } }
    } else {
      assert x[0] == c && x[1..] == rest;
    }
  }

  lemma {:induction false} UnescapeChars(s: string)
    ensures Unescape(EscapeChars(s)) == s
    decreases |s|
  {
    if s != [] {
      UnescapeChars(s[1..]);
      UnescapeEntity(s[0], EscapeChars(s[1..]));
    }
  }

  /** Escaping loses nothing: decoding the entities gives the input back. */
  lemma EscapeRoundTrip(s: string)
    ensures Unescape(EscapeHtml(Some(s))) == s
  {
    EscapeHtmlIsCharwise(s);
    UnescapeChars(s);
  }

  lemma {:induction false} EscapeCharsGrows(s: string)
    ensures |EscapeChars(s)| >= |s|
    ensures (exists i :: 0 <= i < |s| && IsMeta(s[i])) ==> |EscapeChars(s)| > |s| && '&' in EscapeChars(s)
    decreases |s|
  {
    if s != [] {
      EscapeCharsGrows(s[1..]);
      if exists i :: 0 <= i < |s| && IsMeta(s[i]) {
        var i :| 0 <= i < |s| && IsMeta(s[i]);
        if i > 0 {
          assert IsMeta(s[1..][i - 1]);
          assert '&' in EscapeChars(s[1..]);
        } else {
          assert EscChar(s[0])[0] == '&';
        }
      }
    }
  }

  /** Escaping is not idempotent: once the text holds a metacharacter, a second pass escapes
      the ampersands of the first (`&amp;` becomes `&amp;amp;`). */
  lemma EscapeNotIdempotent(s: string)
    requires exists i :: 0 <= i < |s| && IsMeta(s[i])
    ensures EscapeHtml(Some(EscapeHtml(Some(s)))) != EscapeHtml(Some(s))
  {
    var once := EscapeHtml(Some(s));
    EscapeHtmlIsCharwise(s);
    EscapeCharsGrows(s);
    EscapeHtmlIsCharwise(once);
    var k :| 0 <= k < |once| && once[k] == '&';
    assert IsMeta(once[k]);
    EscapeCharsGrows(once);
  }

  // ---------- render_inline and nl2br_filter ----------

  /** What one character becomes when newlines are line breaks. */
  function InlineChar(c: char): string {
    if c == '\n' then "<br>" else EscChar(c)
  }

  function InlineChars(s: string): string {
    if s == [] then [] else InlineChar(s[0]) + InlineChars(s[1..])
  }

  /** `render_inline(text)`: escape, then each newline becomes `<br>`. */
  function RenderInline(text: Option<string>): string {
    Replace(EscapeHtml(text), "\n", "<br>")
  }

  /** `nl2br_filter(text)`: the same computation under its own empty-input guard. */
  function Nl2br(text: Option<string>): string {
    if text == None || text == Some("") then "" else Replace(EscapeHtml(text), "\n", "<br>")
  }

  lemma Nl2brIsRenderInline(text: Option<string>)
    ensures Nl2br(text) == RenderInline(text)
  {
  }

  lemma NewlinePassChar(c: char)
    ensures Replace(EscChar(c), "\n", "<br>") == InlineChar(c)
  {
    if c != '\n' {
      ReplaceAbsent(EscChar(c), "\n", "<br>");
    }
  }

  lemma {:induction false} NewlinePassEscaped(s: string)
    ensures Replace(EscapeChars(s), "\n", "<br>") == InlineChars(s)
    decreases |s|
  {
    if s != [] {
      NewlinePassEscaped(s[1..]);
      ReplaceCharAppend(EscChar(s[0]), EscapeChars(s[1..]), '\n', "<br>");
      NewlinePassChar(s[0]);
    }
  }

  /** `render_inline` is the character-wise map: newline to `<br>`, the rest escaped. */
  lemma RenderInlineIsCharwise(s: string)
    ensures RenderInline(Some(s)) == InlineChars(s)
  {
    EscapeHtmlIsCharwise(s);
    NewlinePassEscaped(s);
  }

  // ---------- render_html ----------

  /** The text after the break-restoring pass of `render_html`: a literal `<br>` in the input
      stays, every other character is escaped. */
  function BreaksRestored(s: string): string
    decreases |s|
  {
    if s == [] then []
    else if StartsAt(s, 0, "<br>") then "<br>" + BreaksRestored(s[4..])
    else EscChar(s[0]) + BreaksRestored(s[1..])
  }

  /** The markup `render_html` produces: a literal `<br>` and each newline become a line
      break, every other character is escaped. */
  function RichChars(s: string): string
    decreases |s|
  {
    if s == [] then []
    else if StartsAt(s, 0, "<br>") then "<br>" + RichChars(s[4..])
    else InlineChar(s[0]) + RichChars(s[1..])
  }

  /** `render_html(text)`: escape, turn each escaped `<br>` back into `<br>`, then each
      newline into `<br>`. */
  function RenderHtml(text: Option<string>): string {
    if text == None || text == Some("") then ""
    else Replace(Replace(EscapeHtml(text), "&lt;br&gt;", "<br>"), "\n", "<br>")
  }

  /** An escaped character starts with `&` exactly when it was one of the five, and is
      itself otherwise. */
  lemma EscCharHead(c: char)
    ensures EscChar(c)[0] == '&' <==> IsMeta(c)
    ensures !IsMeta(c) ==> EscChar(c) == [c]
  {
  }

  /** Escaped text that starts with a character other than `&` starts with that input
      character. */
  lemma EscapedPlainHead(s: string, c: char)
    requires c != '&' && EscapeChars(s) != [] && EscapeChars(s)[0] == c
    ensures s != [] && s[0] == c && EscapeChars(s)[1..] == EscapeChars(s[1..])
  {
    var e := EscChar(s[0]);
    assert EscapeChars(s) == e + EscapeChars(s[1..]);
    EscCharHead(s[0]);
    assert e[0] == c;
  }

  /** Escaped text that starts with an entity starts with the character it stands for. */
  lemma EscapedEntityHead(s: string, c: char)
    requires IsMeta(c) && StartsAt(EscapeChars(s), 0, EscChar(c))
    ensures s != [] && s[0] == c && EscapeChars(s)[|EscChar(c)|..] == EscapeChars(s[1..])
  {
    var x := EscapeChars(s);
    var ec := EscChar(c);
    assert x[0] == ec[0] == '&' && x[1] == ec[1];
    assert s != [];
    var e := EscChar(s[0]);
    assert x == e + EscapeChars(s[1..]);
    EscCharHead(s[0]);
    assert x[0] == e[0];
    assert x[1] == e[1];
    assert s[0] == c;
  }

  /** `br&gt;` at the head of escaped text comes from `br>` in the input. */
  lemma EscapedBrStart(t: string)
    requires StartsAt(EscapeChars(t), 0, "br&gt;")
    ensures StartsAt(t, 0, "br>")
  {
    var p := "br&gt;";
    var x := EscapeChars(t);
    EscapedPlainHead(t, 'b');
    StartsAtDrop(x, p, 1);
    assert p[1..] == "r&gt;";
    EscapedPlainHead(t[1..], 'r');
    StartsAtDrop(x[1..], p[1..], 1);
    assert p[1..][1..] == "&gt;" == EscChar('>');
    assert t[1..][1..] == t[2..];
    EscapedEntityHead(t[2..], '>');
    assert t[..3] == [t[0], t[1], t[2]];
  }

  /** `&lt;br&gt;` appears at the head of escaped text only where the input had `<br>`. */
  lemma EscapedBreakStart(s: string)
    requires StartsAt(EscapeChars(s), 0, "&lt;br&gt;")
    ensures StartsAt(s, 0, "<br>")
  {
    var p := "&lt;br&gt;";
    var x := EscapeChars(s);
    StartsAtShorter(x, p, 4);
    assert p[..4] == EscChar('<');
    EscapedEntityHead(s, '<');
    StartsAtDrop(x, p, 4);
    assert p[4..] == "br&gt;";
    EscapedBrStart(s[1..]);
    assert s[1..][..3] == "br>";
    assert s[..4] == [s[0]] + s[1..][..3];
  }

  lemma {:induction false} RestoreBreaksPass(s: string)
    ensures Replace(EscapeChars(s), "&lt;br&gt;", "<br>") == BreaksRestored(s)
    decreases |s|
  {
    if s == [] {
    } else if StartsAt(s, 0, "<br>") {
      RestoreAtBreak(s);
      RestoreBreaksPass(s[4..]);
    } else {
      RestorePastChar(s);
      RestoreBreaksPass(s[1..]);
    }
  }

  /** An input `<br>` escapes to the pattern the pass restores. */
  lemma RestoreAtBreak(s: string)
    requires StartsAt(s, 0, "<br>")
    ensures Replace(EscapeChars(s), "&lt;br&gt;", "<br>") == "<br>" + Replace(EscapeChars(s[4..]), "&lt;br&gt;", "<br>")
  {
    var pat := "&lt;br&gt;";
    assert s == s[..4] + s[4..];
    EscapeCharsAppend(s[..4], s[4..]);
    assert s[..4] == "<br>";
    assert EscapeChars("<br>") == pat;
    var x := EscapeChars(s);
    assert x == pat + EscapeChars(s[4..]);
    assert StartsAt(x, 0, pat) by { assert x[0..10] == pat; }
    assert x[10..] == EscapeChars(s[4..]);
  }

  /** Any other head character escapes to text the pass leaves alone. */
  lemma RestorePastChar(s: string)
    requires s != [] && !StartsAt(s, 0, "<br>")
    ensures Replace(EscapeChars(s), "&lt;br&gt;", "<br>") == EscChar(s[0]) + Replace(EscapeChars(s[1..]), "&lt;br&gt;", "<br>")
  {
    var pat, rep := "&lt;br&gt;", "<br>";
    var e := EscChar(s[0]);
    var x := e + EscapeChars(s[1..]);
    assert EscapeChars(s) == x;
    if StartsAt(x, 0, pat) {
      EscapedBreakStart(s);
      assert false;
    }
    EscCharTail(s[0]);
    ReplacePastHead(e, EscapeChars(s[1..]), pat, rep);
  }

  lemma {:induction false} NewlinePassRestored(s: string)
    ensures Replace(BreaksRestored(s), "\n", "<br>") == RichChars(s)
    decreases |s|
  {
    if s == [] {
    } else if StartsAt(s, 0, "<br>") {
      NewlinePassRestored(s[4..]);
      ReplaceCharAppend("<br>", BreaksRestored(s[4..]), '\n', "<br>");
      ReplaceAbsent("<br>", "\n", "<br>");
    } else {
      NewlinePassRestored(s[1..]);
      ReplaceCharAppend(EscChar(s[0]), BreaksRestored(s[1..]), '\n', "<br>");
      NewlinePassChar(s[0]);
    }
  }

  /** `render_html` is the token-wise map: `<br>` and newlines to `<br>`, the rest escaped. */
  lemma RenderHtmlIsTokenwise(s: string)
    ensures RenderHtml(Some(s)) == RichChars(s)
  {
    if s != [] {
      EscapeHtmlIsCharwise(s);
      RestoreBreaksPass(s);
      NewlinePassRestored(s);
    }
  }

  // ---------- what reaches the page as markup ----------

  /** Every `<` begins a `<br>` and every `>` ends one. */
  predicate OnlyBreakTags(s: string) {
    forall i {:trigger s[i]} :: 0 <= i < |s| ==>
      (s[i] == '<' ==> StartsAt(s, i, "<br>")) && (s[i] == '>' ==> i >= 3 && StartsAt(s, i - 3, "<br>"))
  }

  lemma OnlyBreakTagsAppend(a: string, b: string)
    requires OnlyBreakTags(a) && OnlyBreakTags(b)
    ensures OnlyBreakTags(a + b)
  {
    forall i | 0 <= i < |a + b|
      ensures ((a + b)[i] == '<' ==> StartsAt(a + b, i, "<br>"))
      ensures ((a + b)[i] == '>' ==> i >= 3 && StartsAt(a + b, i - 3, "<br>"))
    {
      if i < |a| {
        assert (a + b)[i] == a[i];
        if a[i] == '<' { StartsAtLeft(a, b, i, "<br>"); }
        if a[i] == '>' { assert i >= 3 && StartsAt(a, i - 3, "<br>"); StartsAtLeft(a, b, i - 3, "<br>"); }
      } else {
        var j := i - |a|;
        assert (a + b)[i] == b[j];
        if b[j] == '<' { StartsAtRight(a, b, j, "<br>"); }
        if b[j] == '>' {
          assert 0 <= j < |b|;
          assert j >= 3 && StartsAt(b, j - 3, "<br>");
          StartsAtRight(a, b, j - 3, "<br>");
        }
      }
    }
  }

  lemma InlineCharTags(c: char)
    ensures OnlyBreakTags(InlineChar(c))
  {
    if c == '\n' {
      BreakTagAlone();
    } else {
      EscCharNoBrackets(c);
    }
  }

  lemma BreakTagAlone()
    ensures OnlyBreakTags("<br>")
  {
    var s := "<br>";
    assert StartsAt(s, 0, "<br>");
    forall i | 0 <= i < |s| ensures (s[i] == '<' ==> StartsAt(s, i, "<br>")) && (s[i] == '>' ==> i >= 3 && StartsAt(s, i - 3, "<br>")) {
      if i == 0 { } else if i == 3 { } else { assert s[i] == 'b' || s[i] == 'r'; }
    }
  }

  /** Past its first character, an escaped character holds no `&`. */
  lemma EscCharTail(c: char)
    ensures '&' !in EscChar(c)[1..]
  {
  }

  /** An escaped character holds no angle bracket. */
  lemma EscCharNoBrackets(c: char)
    ensures '<' !in EscChar(c) && '>' !in EscChar(c)
  {
  }

  lemma {:induction false} RichCharsTags(s: string)
    ensures OnlyBreakTags(RichChars(s)) && '\n' !in RichChars(s)
    decreases |s|
  {
    if s == [] {
    } else if StartsAt(s, 0, "<br>") {
      RichCharsTags(s[4..]);
      InlineCharTags('\n');
      OnlyBreakTagsAppend("<br>", RichChars(s[4..]));
    } else {
      RichCharsTags(s[1..]);
      InlineCharTags(s[0]);
      OnlyBreakTagsAppend(InlineChar(s[0]), RichChars(s[1..]));
    }
  }

  lemma {:induction false} InlineCharsTags(s: string)
    ensures OnlyBreakTags(InlineChars(s)) && '\n' !in InlineChars(s)
    decreases |s|
  {
    if s != [] {
      InlineCharsTags(s[1..]);
      InlineCharTags(s[0]);
      OnlyBreakTagsAppend(InlineChar(s[0]), InlineChars(s[1..]));
    }
  }

  /** Through `render_inline` the only tag that reaches the page is the `<br>` of a newline,
      and no newline is left. */
  lemma RenderInlineSafe(text: Option<string>)
    ensures OnlyBreakTags(RenderInline(text)) && '\n' !in RenderInline(text)
  {
    if text.Some? {
      RenderInlineIsCharwise(text.value);
      InlineCharsTags(text.value);
    }
  }

  /** Through `render_html` the only tag that reaches the page is `<br>`, and no newline is left. */
  lemma RenderHtmlSafe(text: Option<string>)
    ensures OnlyBreakTags(RenderHtml(text)) && '\n' !in RenderHtml(text)
  {
    if text.Some? {
      RenderHtmlIsTokenwise(text.value);
      RichCharsTags(text.value);
    }
  }

  /** Without a literal `<br>` or a newline in it, `render_html` is plain escaping. */
  lemma {:induction false} RenderHtmlWithoutBreaks(s: string)
    requires forall i :: 0 <= i < |s| ==> !StartsAt(s, i, "<br>")
    requires '\n' !in s
    ensures RenderHtml(Some(s)) == EscapeHtml(Some(s))
    decreases |s|
  {
    RenderHtmlIsTokenwise(s);
    EscapeHtmlIsCharwise(s);
    if s != [] {
      assert !StartsAt(s, 0, "<br>");
      forall i | 0 <= i < |s[1..]| ensures !StartsAt(s[1..], i, "<br>") {
        assert !StartsAt(s, i + 1, "<br>");
        if i + 4 <= |s[1..]| {
          assert s[1..][i..i + 4] == s[i + 1..i + 5];
        }
      }
      RenderHtmlWithoutBreaks(s[1..]);
      RenderHtmlIsTokenwise(s[1..]);
      EscapeHtmlIsCharwise(s[1..]);
    }
  }

  lemma RichCharsStep(s: string)
    requires s != [] && !StartsAt(s, 0, "<br>")
    ensures RichChars(s) == InlineChar(s[0]) + RichChars(s[1..])
  {
  }

  /** A literal `<br>` gets through `render_html`. */
  lemma BreakTagKept()
    ensures RenderHtml(Some("<br>")) == "<br>"
  {
    RenderHtmlIsTokenwise("<br>");
    assert StartsAt("<br>", 0, "<br>") && "<br>"[4..] == [];
  }

  /** Only the exact lower-case `<br>` gets through: by `RenderHtmlIsTokenwise` and
      `RenderInlineIsCharwise`, `render_html` escapes an upper-case `<BR>` and
      `render_inline` escapes every `<br>` of its input. */
  lemma OtherBreakTagsEscaped()
    ensures RichChars("<BR>") == "&lt;BR&gt;"
    ensures InlineChars("<br>") == "&lt;br&gt;"
  {
    assert !StartsAt("<BR>", 0, "<br>") by { assert "<BR>"[0..4][1] == 'B'; }
    assert "<BR>"[1..] == "BR>" && "BR>"[1..] == "R>" && "R>"[1..] == ">" && ">"[1..] == [];
    RichCharsStep("<BR>");
    RichCharsStep("BR>");
    RichCharsStep("R>");
    RichCharsStep(">");
    assert "<br>"[1..] == "br>" && "br>"[1..] == "r>" && "r>"[1..] == ">";
  }

  // ---------- initials ----------

  /** `initials(name)`: the upper-cased first character of each of the first two words
      (`(name or " ").split()[:2]`). */
  function Initials(name: Option<string>): string {
    var ws := Words(if name == None || name == Some("") then " " else name.value);
    if |ws| == 0 then ""
    else if |ws| == 1 then [UpperChar(ws[0][0])]
    else [UpperChar(ws[0][0]), UpperChar(ws[1][0])]
  }

  /** At most two initials, and none for a missing, empty or all-whitespace name. */
  lemma InitialsEmpty(name: Option<string>)
    ensures |Initials(name)| <= 2
    ensures Initials(name) == "" <==> name == None || AllSpace(name.value)
  {
    WordsEmpty(" ");
    if name.Some? {
      WordsEmpty(name.value);
    }
  }

  /** The first initial is the upper-cased first non-whitespace character of the name. */
  lemma InitialsFirst(s: string, i: nat)
    requires i < |s| && !IsSpace(s[i]) && AllSpace(s[..i])
    ensures Initials(Some(s)) != "" && Initials(Some(s))[0] == UpperChar(s[i])
  {
    WordsFirst(s, i);
  }

  /** The initials of a name whose first two words are `a` and `b` are their upper-cased
      first characters. */
  lemma InitialsTwo(p: string, a: string, q: string, b: string, r: string)
    requires AllSpace(p) && AllSpace(q) && q != []
    requires a != [] && NoSpace(a) && b != [] && NoSpace(b)
    requires r == [] || IsSpace(r[0])
    ensures Initials(Some(p + a + q + b + r)) == [UpperChar(a[0]), UpperChar(b[0])]
  {
    WordsTwo(p, a, q, b, r);
    assert |p + a + q + b + r| > 0;
  }
}
