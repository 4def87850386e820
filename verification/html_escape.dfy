/** The `escapeHtml` helper of the photo server (server.js): every occurrence
    of one of the five characters `& < > " '` is replaced by its HTML entity,
    every other character is kept.  The JavaScript does this with one global
    regular-expression replace over a character class, which visits each
    character exactly once; the model is the equivalent character-wise map. */
module HtmlEscape {

  /** The five characters the helper rewrites. */
  predicate IsSpecial(c: char) {
    c == '&' || c == '<' || c == '>' || c == '"' || c == '\''
  }

  /** The lookup table of escapeHtml, extended by the identity on every other
      character (those are not matched by the character class). */
  function EntityFor(c: char): (e: string)
    ensures |e| >= 1
    ensures IsSpecial(c) <==> |e| > 1
    ensures !IsSpecial(c) ==> e == [c]
    ensures IsSpecial(c) ==> e[0] == '&' && e[|e| - 1] == ';'
  {
    match c
    case '&' => "&amp;"
    case '<' => "&lt;"
    case '>' => "&gt;"
    case '"' => "&quot;"
    case '\'' => "&#039;"
    case _ => [c]
  }

  /** Output alphabet: no character that can open a tag or end an attribute. */
  predicate NoMarkup(t: string) {
    forall i :: 0 <= i < |t| ==> t[i] != '<' && t[i] != '>' && t[i] != '"' && t[i] != '\''
  }

  /** `t` begins with one of the five entities the helper emits. */
  predicate StartsEntity(t: string) {
    "&amp;" <= t || "&lt;" <= t || "&gt;" <= t || "&quot;" <= t || "&#039;" <= t
  }

  /** Every ampersand in `t` is the start of one of the five entities. */
  predicate AmpersandsAreEntities(t: string) {
    forall i :: 0 <= i < |t| && t[i] == '&' ==> StartsEntity(t[i..])
  }

  predicate Safe(t: string) {
    NoMarkup(t) && AmpersandsAreEntities(t)
  }

  predicate NoSpecials(s: string) {
    forall i :: 0 <= i < |s| ==> !IsSpecial(s[i])
  }

  /** Both output properties survive concatenation: an entity that starts in
      the left part is still a prefix once more text follows it. */
  lemma {:induction false} SafeConcat(a: string, b: string)
    requires Safe(a) && Safe(b)
    ensures Safe(a + b)
  {
    var t := a + b;
    forall i | 0 <= i < |t|
      ensures t[i] != '<' && t[i] != '>' && t[i] != '"' && t[i] != '\''
      ensures t[i] == '&' ==> StartsEntity(t[i..])
    {
      if i < |a| {
        assert t[i] == a[i];
        assert t[i..] == a[i..] + b;
      } else {
        assert t[i] == b[i - |a|];
        assert t[i..] == b[i - |a|..];
      }
    }
  }

  lemma EntityIsSafe(c: char)
    ensures Safe(EntityFor(c))
  {
    var e := EntityFor(c);
    forall i | 0 <= i < |e|
      ensures e[i] != '<' && e[i] != '>' && e[i] != '"' && e[i] != '\''
      ensures e[i] == '&' ==> StartsEntity(e[i..])
    {
      if i == 0 {
        assert e[0..] == e;
      }
    }
  }

  /** escapeHtml(text).  The result contains none of `< > " '`, and every `&`
      in it opens one of the five entities. */
  function EscapeHtml(s: string): (r: string)
    ensures |r| >= |s|
    ensures Safe(r)
  {
    if s == [] then []
    else
      var head := EntityFor(s[0]);
      var tail := EscapeHtml(s[1..]);
      EntityIsSafe(s[0]);
      SafeConcat(head, tail);
      head + tail
  }

  /** Decodes the five entities escapeHtml emits, left to right; any other
      text, including other entities, is copied unchanged. */
  function UnescapeHtml(t: string): (s: string)
    ensures |s| <= |t|
    decreases |t|
  {
    if t == [] then []
    else if "&amp;" <= t then "&" + UnescapeHtml(t[5..])
    else if "&lt;" <= t then "<" + UnescapeHtml(t[4..])
    else if "&gt;" <= t then ">" + UnescapeHtml(t[4..])
    else if "&quot;" <= t then "\"" + UnescapeHtml(t[6..])
    else if "&#039;" <= t then "'" + UnescapeHtml(t[6..])
    else [t[0]] + UnescapeHtml(t[1..])
  }

  /** The decoder reads one character's replacement back as that character,
      whatever text follows it. */
  lemma UnescapeEntity(c: char, rest: string)
    ensures UnescapeHtml(EntityFor(c) + rest) == [c] + UnescapeHtml(rest)
  {
    var e := EntityFor(c);
    var t := e + rest;
    assert e <= t && t[|e|..] == rest;
    assert t[0] == e[0];
    if c == '<' {
      assert t[1] == 'l';
    } else if c == '>' {
      assert t[1] == 'g';
    } else if c == '"' {
      assert t[1] == 'q';
    } else if c == '\'' {
      assert t[1] == '#';
    } else if c != '&' {
      assert t[0] == c;
    }
  }

  /** Decoding the output of escapeHtml gives back its input: no information
      is lost and nothing is decoded twice. */
  lemma {:induction false} UnescapeEscape(s: string)
    ensures UnescapeHtml(EscapeHtml(s)) == s
  {
    if s != [] {
      UnescapeEscape(s[1..]);
      UnescapeEntity(s[0], EscapeHtml(s[1..]));
      assert s == [s[0]] + s[1..];
    }
  }

  /** escapeHtml distributes over concatenation, as a character-wise
      replacement must. */
  lemma {:induction false} EscapeConcat(a: string, b: string)
    ensures EscapeHtml(a + b) == EscapeHtml(a) + EscapeHtml(b)
  {
    if a != [] {
      assert (a + b)[0] == a[0];
      assert (a + b)[1..] == a[1..] + b;
      EscapeConcat(a[1..], b);
    } else {
      assert a + b == b;
    }
  }

  /** escapeHtml leaves a string unchanged exactly when the string holds none
      of the five special characters. */
  lemma {:induction false} EscapeIdentityIff(s: string)
    ensures EscapeHtml(s) == s <==> NoSpecials(s)
  {
    if s == [] {
    } else {
      EscapeIdentityIff(s[1..]);
      var e := EntityFor(s[0]);
      var rest := EscapeHtml(s[1..]);
      assert EscapeHtml(s) == e + rest;
      if NoSpecials(s) {
        assert NoSpecials(s[1..]) by {
          forall i | 0 <= i < |s[1..]| ensures !IsSpecial(s[1..][i]) {
            assert s[1..][i] == s[i + 1];
          }
        }
        assert e == [s[0]];
        assert s == [s[0]] + s[1..];
      } else if IsSpecial(s[0]) {
        assert |EscapeHtml(s)| > |s|;
      } else {
        var k :| 0 <= k < |s| && IsSpecial(s[k]);
        assert k > 0 && s[1..][k - 1] == s[k];
        assert !NoSpecials(s[1..]);
      }
    }
  }
}
