/**
 * `escapeHtml`: five `replaceAll` passes, `&` first, so that the entities
 * the later passes insert are not escaped again.
 */
module HtmlEscape {
  import Text

  /** The five passes in the source's order. */
  function EscapeHtml(s: string): string {
    LaterPasses(Text.ReplaceChar(s, '&', "&amp;"))
  }

  /** The four passes after the `&` one. */
  function LaterPasses(amp: string): string {
    var lt := Text.ReplaceChar(amp, '<', "&lt;");
    var gt := Text.ReplaceChar(lt, '>', "&gt;");
    var quot := Text.ReplaceChar(gt, '"', "&quot;");
    Text.ReplaceChar(quot, '\'', "&#039;")
  }

  /** The later passes leave text without `<`, `>`, `"` and `'` alone. */
  lemma LaterPassesAbsent(t: string)
    requires '<' !in t && '>' !in t && '"' !in t && '\'' !in t
    ensures LaterPasses(t) == t
  {
    ReplaceAbsent(t, '<', "&lt;");
    ReplaceAbsent(t, '>', "&gt;");
    ReplaceAbsent(t, '"', "&quot;");
    ReplaceAbsent(t, '\'', "&#039;");
  }

  predicate Special(c: char) {
    c == '&' || c == '<' || c == '>' || c == '"' || c == '\''
  }

  /** What a single character becomes. */
  function Entity(c: char): string {
    match c
    case '&' => "&amp;"
    case '<' => "&lt;"
    case '>' => "&gt;"
    case '"' => "&quot;"
    case '\'' => "&#039;"
    case _ => [c]
  }

  /** The reference reading: every character replaced by its entity, independently. */
  function EscapeEach(s: string): string {
    if s == [] then [] else Entity(s[0]) + EscapeEach(s[1..])
  }

  lemma {:induction false} ReplaceAbsent(s: string, c: char, rep: string)
    requires c !in s
    ensures Text.ReplaceChar(s, c, rep) == s
  {
    if s != [] {
      assert s[0] in s;
      assert forall k :: 0 <= k < |s[1..]| ==> s[1..][k] == s[k + 1];
      ReplaceAbsent(s[1..], c, rep);
    }
  }

  lemma ReplaceOne(c: char, d: char, rep: string)
    ensures Text.ReplaceChar([c], d, rep) == if c == d then rep else [c]
  {
    assert [c][1..] == [];
  }

  /** The five passes on one character give its entity. */
  lemma EscapeOneChar(c: char)
    ensures EscapeHtml([c]) == Entity(c)
  {
    match c
    case '&' => EscapeAmp();
    case '<' => EscapeLt();
    case '>' => EscapeGt();
    case '"' => EscapeQuot();
    case '\'' => EscapeApos();
    case _ => EscapeOther(c);
  }

  lemma EscapeAmp()
    ensures EscapeHtml("&") == "&amp;"
  {
    ReplaceOne('&', '&', "&amp;");
    LaterPassesAbsent("&amp;");
  }

  lemma EscapeLt()
    ensures EscapeHtml("<") == "&lt;"
  {
    ReplaceOne('<', '&', "&amp;");
    ReplaceOne('<', '<', "&lt;");
    LastPasses("&lt;");
  }

  lemma EscapeGt()
    ensures EscapeHtml(">") == "&gt;"
  {
    ReplaceOne('>', '&', "&amp;");
    ReplaceOne('>', '<', "&lt;");
    ReplaceOne('>', '>', "&gt;");
    LastPasses("&gt;");
  }

  lemma EscapeQuot()
    ensures EscapeHtml("\"") == "&quot;"
  {
    ReplaceOne('"', '&', "&amp;");
    ReplaceOne('"', '<', "&lt;");
    ReplaceOne('"', '>', "&gt;");
    ReplaceOne('"', '"', "&quot;");
    LastPasses("&quot;");
  }

  lemma EscapeApos()
    ensures EscapeHtml("'") == "&#039;"
  {
    ReplaceOne('\'', '&', "&amp;");
    ReplaceOne('\'', '<', "&lt;");
    ReplaceOne('\'', '>', "&gt;");
    ReplaceOne('\'', '"', "&quot;");
    ReplaceOne('\'', '\'', "&#039;");
  }

  /** An entity without `>`, `"` and `'` passes the last three passes unchanged. */
  lemma LastPasses(e: string)
    requires '>' !in e && '"' !in e && '\'' !in e
    ensures Text.ReplaceChar(e, '>', "&gt;") == e
    ensures Text.ReplaceChar(e, '"', "&quot;") == e
    ensures Text.ReplaceChar(e, '\'', "&#039;") == e
  {
    ReplaceAbsent(e, '>', "&gt;");
    ReplaceAbsent(e, '"', "&quot;");
    ReplaceAbsent(e, '\'', "&#039;");
  }

  lemma EscapeOther(c: char)
    requires !Special(c)
    ensures EscapeHtml([c]) == [c]
  {
    ReplaceOne(c, '&', "&amp;");
    ReplaceOne(c, '<', "&lt;");
    ReplaceOne(c, '>', "&gt;");
    ReplaceOne(c, '"', "&quot;");
    ReplaceOne(c, '\'', "&#039;");
  }

  lemma EscapeAppend(a: string, b: string)
    ensures EscapeHtml(a + b) == EscapeHtml(a) + EscapeHtml(b)
  {
    Text.ReplaceCharAppend(a, b, '&', "&amp;");
    var a1, b1 := Text.ReplaceChar(a, '&', "&amp;"), Text.ReplaceChar(b, '&', "&amp;");
    Text.ReplaceCharAppend(a1, b1, '<', "&lt;");
    var a2, b2 := Text.ReplaceChar(a1, '<', "&lt;"), Text.ReplaceChar(b1, '<', "&lt;");
    Text.ReplaceCharAppend(a2, b2, '>', "&gt;");
    var a3, b3 := Text.ReplaceChar(a2, '>', "&gt;"), Text.ReplaceChar(b2, '>', "&gt;");
    Text.ReplaceCharAppend(a3, b3, '"', "&quot;");
    var a4, b4 := Text.ReplaceChar(a3, '"', "&quot;"), Text.ReplaceChar(b3, '"', "&quot;");
    Text.ReplaceCharAppend(a4, b4, '\'', "&#039;");
  }

  /**
   * Because `&` goes first, the chained passes amount to escaping every
   * character on its own: no inserted entity is escaped a second time.
   */
  lemma {:induction false} EscapeIsPerChar(s: string)
    ensures EscapeHtml(s) == EscapeEach(s)
  {
    if s != [] {
      assert s == [s[0]] + s[1..];
      EscapeAppend([s[0]], s[1..]);
      EscapeOneChar(s[0]);
      EscapeIsPerChar(s[1..]);
    }
  }

  /** The output has no `<`, `>`, `"` or `'`. */
  lemma {:induction false} EscapedHasNoMarkup(s: string)
    ensures '<' !in EscapeHtml(s) && '>' !in EscapeHtml(s) && '"' !in EscapeHtml(s) && '\'' !in EscapeHtml(s)
  {
    EscapeIsPerChar(s);
    EachHasNoMarkup(s);
  }

  lemma {:induction false} EachHasNoMarkup(s: string)
    ensures '<' !in EscapeEach(s) && '>' !in EscapeEach(s) && '"' !in EscapeEach(s) && '\'' !in EscapeEach(s)
  {
    if s != [] {
      EachHasNoMarkup(s[1..]);
      EntityHasNoMarkup(s[0]);
      var e, rest := Entity(s[0]), EscapeEach(s[1..]);
      assert EscapeEach(s) == e + rest;
      forall c | c in e + rest
        ensures c in e || c in rest
      {
      }
    }
  }

  /** No entity contains an angle bracket or a quote. */
  lemma EntityHasNoMarkup(c: char)
    ensures '<' !in Entity(c) && '>' !in Entity(c) && '"' !in Entity(c) && '\'' !in Entity(c)
  {
    if Special(c) {
      assert Entity(c) in ["&amp;", "&lt;", "&gt;", "&quot;", "&#039;"];
    }
  }

  /** A string without any of the five special characters is left as it is. */
  lemma PlainUnchanged(s: string)
    requires forall k :: 0 <= k < |s| ==> !Special(s[k])
    ensures EscapeHtml(s) == s
  {
    ReplaceAbsent(s, '&', "&amp;");
    ReplaceAbsent(s, '<', "&lt;");
    ReplaceAbsent(s, '>', "&gt;");
    ReplaceAbsent(s, '"', "&quot;");
    ReplaceAbsent(s, '\'', "&#039;");
  }

  predicate StartsWith(s: string, p: string) {
    |p| <= |s| && s[..|p|] == p
  }

  /** Decoding of the five entities; any other text stands for itself. */
  function Unescape(s: string): string
    decreases |s|
  {
    if s == [] then []
    else if s[0] != '&' then [s[0]] + Unescape(s[1..])
    else if StartsWith(s, "&amp;") then "&" + Unescape(s[5..])
    else if StartsWith(s, "&lt;") then "<" + Unescape(s[4..])
    else if StartsWith(s, "&gt;") then ">" + Unescape(s[4..])
    else if StartsWith(s, "&quot;") then "\"" + Unescape(s[6..])
    else if StartsWith(s, "&#039;") then "'" + Unescape(s[6..])
    else "&" + Unescape(s[1..])
  }

  lemma UnescapeEntity(c: char, rest: string)
    ensures Unescape(Entity(c) + rest) == [c] + Unescape(rest)
  {
    match c
    case '&' => UnescapeAt("&amp;", '&', rest);
    case '<' => UnescapeAt("&lt;", '<', rest);
    case '>' => UnescapeAt("&gt;", '>', rest);
    case '"' => UnescapeAt("&quot;", '"', rest);
    case '\'' => UnescapeAt("&#039;", '\'', rest);
    case _ =>
      var s := [c] + rest;
      assert s[0] == c && s[1..] == rest;
  }

  /** An entity at the front decodes to its character and decoding carries on after it. */
  lemma UnescapeAt(e: string, c: char, rest: string)
    requires Special(c) && e == Entity(c)
    ensures Unescape(e + rest) == [c] + Unescape(rest)
  {
    var s := e + rest;
    assert s[..|e|] == e && s[|e|..] == rest;
    assert StartsWith(s, e);
    assert s[0] == '&';
    if c != '&' {
      assert !StartsWith(s, "&amp;") by { assert s[1] != 'a'; }
    }
    if c != '&' && c != '<' {
      assert !StartsWith(s, "&lt;") by { assert s[1] != 'l'; }
    }
    if c != '&' && c != '<' && c != '>' {
      assert !StartsWith(s, "&gt;") by { assert s[1] != 'g'; }
    }
    if c == '\'' {
      assert !StartsWith(s, "&quot;") by { assert s[1] != 'q'; }
    }
  }

  /** Decoding the escaped text gives the original back. */
  lemma {:induction false} UnescapeRoundTrip(s: string)
    ensures Unescape(EscapeHtml(s)) == s
  {
    EscapeIsPerChar(s);
    UnescapeEach(s);
  }

  lemma {:induction false} UnescapeEach(s: string)
    ensures Unescape(EscapeEach(s)) == s
  {
    if s != [] {
      UnescapeEntity(s[0], EscapeEach(s[1..]));
      UnescapeEach(s[1..]);
    }
  }
}
