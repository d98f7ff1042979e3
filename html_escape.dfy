/** `escapeHtml` of the calendar's print fallback: five chained global
    replacements, `&` first, then `<`, `>`, `"` and `'`. The model proves that the
    chain equals a single left-to-right pass that replaces each special character
    by its entity, that the output holds no markup character, that every `&` in
    it begins one of the five entities, and that decoding the entities gives the
    input back. */
module HtmlEscape {
  import opened Common

  /** `s.replace(/c/g, rep)` for a one-character pattern. */
  function ReplaceAll(s: string, c: char, rep: string): (r: string)
    ensures c !in s ==> r == s
    ensures c !in rep ==> c !in r
  {
    if s == [] then []
    else (if s[0] == c then rep else [s[0]]) + ReplaceAll(s[1..], c, rep)
  }

  /** Replacing in a concatenation replaces in each part. */
  lemma {:induction false} ReplaceAllAppend(a: string, b: string, c: char, rep: string)
    ensures ReplaceAll(a + b, c, rep) == ReplaceAll(a, c, rep) + ReplaceAll(b, c, rep)
  {
    if a == [] {
      assert a + b == b;
    } else {
      assert (a + b)[0] == a[0] && (a + b)[1..] == a[1..] + b;
      ReplaceAllAppend(a[1..], b, c, rep);
    }
  }

  /** A non-empty replacement never shortens the text. */
  lemma {:induction false} ReplaceAllGrows(s: string, c: char, rep: string)
    requires |rep| > 0
    ensures |ReplaceAll(s, c, rep)| >= |s|
  {
    if s != [] {
      ReplaceAllGrows(s[1..], c, rep);
    }
  }

  /** The function as the source chains it. Escaping never shortens the text. */
  function EscapeHtml(s: string): (r: string)
    ensures |r| >= |s|
  {
    var amp := ReplaceAll(s, '&', "&amp;");
    var lt := ReplaceAll(amp, '<', "&lt;");
    var gt := ReplaceAll(lt, '>', "&gt;");
    var quot := ReplaceAll(gt, '"', "&quot;");
    ReplaceAllGrows(s, '&', "&amp;");
    ReplaceAllGrows(amp, '<', "&lt;");
    ReplaceAllGrows(lt, '>', "&gt;");
    ReplaceAllGrows(gt, '"', "&quot;");
    ReplaceAllGrows(quot, '\'', "&#039;");
    ReplaceAll(quot, '\'', "&#039;")
  }

  predicate IsSpecial(c: char) {
    c == '&' || c == '<' || c == '>' || c == '"' || c == '\''
  }

  /** A character that would be read as markup or end an attribute value. */
  predicate IsMarkup(c: char) {
    c == '<' || c == '>' || c == '"' || c == '\''
  }

  /** The text one character stands for after escaping. */
  function EntityOf(c: char): (e: string)
    ensures !IsSpecial(c) <==> e == [c]
    ensures |e| > 0
    ensures e[0] == if IsSpecial(c) then '&' else c
  {
    if c == '&' then "&amp;"
    else if c == '<' then "&lt;"
    else if c == '>' then "&gt;"
    else if c == '"' then "&quot;"
    else if c == '\'' then "&#039;"
    else [c]
  }

  /** The reference: one pass, each character replaced by its entity. */
  function EscapeChars(s: string): string {
    if s == [] then [] else EntityOf(s[0]) + EscapeChars(s[1..])
  }

  lemma EscapeHtmlAppend(a: string, b: string)
    ensures EscapeHtml(a + b) == EscapeHtml(a) + EscapeHtml(b)
  {
    var a1, b1 := ReplaceAll(a, '&', "&amp;"), ReplaceAll(b, '&', "&amp;");
    ReplaceAllAppend(a, b, '&', "&amp;");
    var a2, b2 := ReplaceAll(a1, '<', "&lt;"), ReplaceAll(b1, '<', "&lt;");
    ReplaceAllAppend(a1, b1, '<', "&lt;");
    var a3, b3 := ReplaceAll(a2, '>', "&gt;"), ReplaceAll(b2, '>', "&gt;");
    ReplaceAllAppend(a2, b2, '>', "&gt;");
    var a4, b4 := ReplaceAll(a3, '"', "&quot;"), ReplaceAll(b3, '"', "&quot;");
    ReplaceAllAppend(a3, b3, '"', "&quot;");
    ReplaceAllAppend(a4, b4, '\'', "&#039;");
  }

  /** One character through the chain: an entity produced by an earlier stage
      holds none of the characters later stages replace, and `&` goes first, so
      no entity is escaped twice. */
  lemma EscapeHtmlChar(c: char)
    ensures EscapeHtml([c]) == EntityOf(c)
  {
    ReplaceSingle(c, '&', "&amp;");
    var s1 := ReplaceAll([c], '&', "&amp;");
    if c == '&' {
      assert '<' !in s1 && '>' !in s1 && '"' !in s1 && '\'' !in s1;
    } else {
      ReplaceSingle(c, '<', "&lt;");
      var s2 := ReplaceAll([c], '<', "&lt;");
      if c == '<' {
        assert '>' !in s2 && '"' !in s2 && '\'' !in s2;
      } else {
        ReplaceSingle(c, '>', "&gt;");
        var s3 := ReplaceAll([c], '>', "&gt;");
        if c == '>' {
          assert '"' !in s3 && '\'' !in s3;
        } else {
          ReplaceSingle(c, '"', "&quot;");
          var s4 := ReplaceAll([c], '"', "&quot;");
          if c == '"' {
            assert '\'' !in s4;
          } else {
            ReplaceSingle(c, '\'', "&#039;");
          }
        }
      }
    }
  }

  lemma ReplaceSingle(x: char, c: char, rep: string)
    ensures ReplaceAll([x], c, rep) == if x == c then rep else [x]
  {
    assert [x][1..] == [];
  }

  /** The chained replacements compute the one-pass escape. */
  lemma {:induction false} EscapeHtmlIsEscapeChars(s: string)
    ensures EscapeHtml(s) == EscapeChars(s)
  {
    if s != [] {
      assert s == [s[0]] + s[1..];
      EscapeHtmlAppend([s[0]], s[1..]);
      EscapeHtmlChar(s[0]);
      EscapeHtmlIsEscapeChars(s[1..]);
    }
  }

  /** Text without special characters is left as it is. */
  lemma EscapeHtmlPlain(s: string)
    requires forall i :: 0 <= i < |s| ==> !IsSpecial(s[i])
    ensures EscapeHtml(s) == s
  {
    EscapeHtmlIsEscapeChars(s);
    EscapeCharsPlain(s);
  }

  lemma {:induction false} EscapeCharsPlain(s: string)
    requires forall i :: 0 <= i < |s| ==> !IsSpecial(s[i])
    ensures EscapeChars(s) == s
  {
    if s != [] {
      EscapeCharsPlain(s[1..]);
      assert s == [s[0]] + s[1..];
    }
  }

  /** The escaped text contains no `<`, `>`, `"` or `'`. */
  lemma EscapeHtmlNoMarkup(s: string)
    ensures forall i :: 0 <= i < |EscapeHtml(s)| ==> !IsMarkup(EscapeHtml(s)[i])
  {
    EscapeHtmlIsEscapeChars(s);
    EscapeCharsNoMarkup(s);
  }

  lemma {:induction false} EscapeCharsNoMarkup(s: string)
    ensures forall i :: 0 <= i < |EscapeChars(s)| ==> !IsMarkup(EscapeChars(s)[i])
  {
    if s != [] {
      EscapeCharsNoMarkup(s[1..]);
      var e, r := EntityOf(s[0]), EscapeChars(s[1..]);
      forall i | 0 <= i < |e + r|
        ensures !IsMarkup((e + r)[i])
      {
        if i >= |e| {
          assert (e + r)[i] == r[i - |e|];
        }
      }
    }
  }

  /** `r` begins with one of the five entities. */
  predicate StartsEntity(r: string) {
    IsPrefix("&amp;", r) || IsPrefix("&lt;", r) || IsPrefix("&gt;", r)
      || IsPrefix("&quot;", r) || IsPrefix("&#039;", r)
  }

  /** Every `&` in `r` begins an entity. */
  predicate AmpersandsAreEntities(r: string) {
    forall i :: 0 <= i < |r| && r[i] == '&' ==> StartsEntity(r[i..])
  }

  /** Every `&` of the escaped text begins an entity: no `&` of the input
      survives bare. */
  lemma EscapeHtmlAmpersands(s: string)
    ensures AmpersandsAreEntities(EscapeHtml(s))
  {
    EscapeHtmlIsEscapeChars(s);
    EscapeCharsAmpersands(s);
  }

  lemma {:induction false} EscapeCharsAmpersands(s: string)
    ensures AmpersandsAreEntities(EscapeChars(s))
  {
    if s != [] {
      EscapeCharsAmpersands(s[1..]);
      var e, r := EntityOf(s[0]), EscapeChars(s[1..]);
      forall i | 0 <= i < |e + r| && (e + r)[i] == '&'
        ensures StartsEntity((e + r)[i..])
      {
        if i < |e| {
          EntityAmpersand(s[0], i);
          assert (e + r)[..|e|] == e;
        } else {
          assert (e + r)[i..] == r[i - |e|..];
        }
      }
    }
  }

  /** Inside an entity the only `&` is the first character, and the entity
      followed by anything begins with it. */
  lemma EntityAmpersand(c: char, i: nat)
    requires i < |EntityOf(c)| && EntityOf(c)[i] == '&'
    ensures i == 0 && IsSpecial(c)
    ensures forall r :: IsPrefix(EntityOf(c), EntityOf(c) + r) && StartsEntity(EntityOf(c) + r)
  {
    forall r
      ensures IsPrefix(EntityOf(c), EntityOf(c) + r) && StartsEntity(EntityOf(c) + r)
    {
      assert (EntityOf(c) + r)[..|EntityOf(c)|] == EntityOf(c);
    }
  }

  /** Decoding of the five entities, the inverse of the escape. */
  function Unescape(r: string): string
    decreases |r|
  {
    if r == [] then []
    else if IsPrefix("&amp;", r) then "&" + Unescape(r[5..])
    else if IsPrefix("&lt;", r) then "<" + Unescape(r[4..])
    else if IsPrefix("&gt;", r) then ">" + Unescape(r[4..])
    else if IsPrefix("&quot;", r) then "\"" + Unescape(r[6..])
    else if IsPrefix("&#039;", r) then "'" + Unescape(r[6..])
    else [r[0]] + Unescape(r[1..])
  }

  /** Escaping loses nothing: decoding the entities gives the input back. */
  lemma EscapeHtmlRoundTrip(s: string)
    ensures Unescape(EscapeHtml(s)) == s
  {
    EscapeHtmlIsEscapeChars(s);
    EscapeCharsRoundTrip(s);
  }

  lemma {:induction false} EscapeCharsRoundTrip(s: string)
    ensures Unescape(EscapeChars(s)) == s
  {
    if s != [] {
      EscapeCharsRoundTrip(s[1..]);
      UnescapeEntity(s[0], EscapeChars(s[1..]));
      assert s == [s[0]] + s[1..];
    }
  }

  lemma UnescapeEntity(c: char, r: string)
    ensures Unescape(EntityOf(c) + r) == [c] + Unescape(r)
  {
    var e := EntityOf(c);
    var t := e + r;
    assert t[..|e|] == e && t[|e|..] == r;
    if c == '&' {
      assert IsPrefix("&amp;", t);
    } else if c == '<' {
      assert t[1] == 'l';
      assert !IsPrefix("&amp;", t);
      assert IsPrefix("&lt;", t);
    } else if c == '>' {
      assert t[1] == 'g';
      assert !IsPrefix("&amp;", t) && !IsPrefix("&lt;", t);
      assert IsPrefix("&gt;", t);
    } else if c == '"' {
      assert t[1] == 'q';
      assert !IsPrefix("&amp;", t) && !IsPrefix("&lt;", t) && !IsPrefix("&gt;", t);
      assert IsPrefix("&quot;", t);
    } else if c == '\'' {
      assert t[1] == '#';
      assert !IsPrefix("&amp;", t) && !IsPrefix("&lt;", t) && !IsPrefix("&gt;", t);
      assert !IsPrefix("&quot;", t);
      assert IsPrefix("&#039;", t);
    } else {
      assert t[0] == c && t[0] != '&';
      assert !StartsEntity(t);
      assert t[1..] == r;
    }
  }
}
