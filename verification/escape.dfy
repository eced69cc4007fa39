/** The HTML escaper of the client script (`escapeHTML`): five global
    replacements, ampersand first. */
module Escape {
  import opened Wrappers

  /** `replace(/c/g, rep)` for a single character `c`. */
  function ReplaceAll(s: string, c: char, rep: string): (r: string)
    ensures c !in rep ==> c !in r
  {
    if |s| == 0 then []
    else (if s[0] == c then rep else [s[0]]) + ReplaceAll(s[1..], c, rep)
  }

  /** `escapeHTML`: None stands for a null or undefined argument. */
  function EscapeHtml(str: Option<string>): (r: string)
    ensures str.None? ==> r == ""
    ensures '<' !in r && '>' !in r && '"' !in r && '\'' !in r
  {
    match str
    case None => ""
    case Some(s) =>
      PassesRemoveSpecials(s);
      Passes(s)
  }

  /** The five passes, in the script's order. */
  function Passes(s: string): string {
    ReplaceAll(ReplaceAll(ReplaceAll(ReplaceAll(ReplaceAll(s, '&', "&amp;"), '<', "&lt;"), '>', "&gt;"), '"', "&quot;"), '\'', "&#039;")
  }

  lemma PassesRemoveSpecials(s: string)
    ensures var r := Passes(s);
            '<' !in r && '>' !in r && '"' !in r && '\'' !in r
  {
    var a := ReplaceAll(s, '&', "&amp;");
    var b := ReplaceAll(a, '<', "&lt;");
    var c := ReplaceAll(b, '>', "&gt;");
    var d := ReplaceAll(c, '"', "&quot;");
    EntityChars();
    ReplaceAllKeepsAbsent(b, '>', "&gt;", '<');
    ReplaceAllKeepsAbsent(c, '"', "&quot;", '<');
    ReplaceAllKeepsAbsent(c, '"', "&quot;", '>');
    ReplaceAllKeepsAbsent(d, '\'', "&#039;", '<');
    ReplaceAllKeepsAbsent(d, '\'', "&#039;", '>');
    ReplaceAllKeepsAbsent(d, '\'', "&#039;", '"');
  }

  /** None of the entities contains a character a later pass replaces. */
  lemma EntityChars()
    ensures '<' !in "&lt;" && '<' !in "&gt;" && '<' !in "&quot;" && '<' !in "&#039;"
    ensures '>' !in "&gt;" && '>' !in "&quot;" && '>' !in "&#039;"
    ensures '"' !in "&quot;" && '"' !in "&#039;"
    ensures '\'' !in "&#039;"
  {
  }

  /** The entity one character is written as. */
  function EscapeChar(c: char): string {
    if c == '&' then "&amp;"
    else if c == '<' then "&lt;"
    else if c == '>' then "&gt;"
    else if c == '"' then "&quot;"
    else if c == '\'' then "&#039;"
    else [c]
  }

  /** Reference definition: every character is escaped on its own. */
  function EscapeEach(s: string): string {
    if |s| == 0 then [] else EscapeChar(s[0]) + EscapeEach(s[1..])
  }

  predicate StartsWith(s: string, p: string) {
    |p| <= |s| && s[..|p|] == p
  }

  /** Decoder for the five entities, the inverse the escaper is measured against. */
  function Unescape(s: string): string
    decreases |s|
  {
    if |s| == 0 then []
    else if StartsWith(s, "&amp;") then "&" + Unescape(s[5..])
    else if StartsWith(s, "&lt;") then "<" + Unescape(s[4..])
    else if StartsWith(s, "&gt;") then ">" + Unescape(s[4..])
    else if StartsWith(s, "&quot;") then "\"" + Unescape(s[6..])
    else if StartsWith(s, "&#039;") then "'" + Unescape(s[6..])
    else [s[0]] + Unescape(s[1..])
  }

  lemma ReplaceAllKeepsAbsent(s: string, c: char, rep: string, x: char)
    requires x !in s && x !in rep
    ensures x !in ReplaceAll(s, c, rep)
  {
  }

  lemma ReplaceAllAppend(a: string, b: string, c: char, rep: string)
    ensures ReplaceAll(a + b, c, rep) == ReplaceAll(a, c, rep) + ReplaceAll(b, c, rep)
  {
    if |a| == 0 {
      assert a + b == b;
    } else {
      assert (a + b)[1..] == a[1..] + b;
      ReplaceAllAppend(a[1..], b, c, rep);
    }
  }

  lemma {:induction false} ReplaceAllAbsent(s: string, c: char, rep: string)
    requires c !in s
    ensures ReplaceAll(s, c, rep) == s
  {
    if |s| > 0 {
      ReplaceAllAbsent(s[1..], c, rep);
    }
  }

  lemma {:induction false} PassesAppend(a: string, b: string)
    ensures Passes(a + b) == Passes(a) + Passes(b)
  {
    var a1, b1 := ReplaceAll(a, '&', "&amp;"), ReplaceAll(b, '&', "&amp;");
    ReplaceAllAppend(a, b, '&', "&amp;");
    var a2, b2 := ReplaceAll(a1, '<', "&lt;"), ReplaceAll(b1, '<', "&lt;");
    ReplaceAllAppend(a1, b1, '<', "&lt;");
    var a3, b3 := ReplaceAll(a2, '>', "&gt;"), ReplaceAll(b2, '>', "&gt;");
    ReplaceAllAppend(a2, b2, '>', "&gt;");
    var a4, b4 := ReplaceAll(a3, '"', "&quot;"), ReplaceAll(b3, '"', "&quot;");
    ReplaceAllAppend(a3, b3, '"', "&quot;");
    ReplaceAllAppend(a4, b4, '\'', "&#039;");
  }

  lemma ReplaceAllSingle(c: char, x: char, rep: string)
    ensures ReplaceAll([c], x, rep) == if c == x then rep else [c]
  {
    assert [c][1..] == [];
  }

  /** A pass that meets none of its character leaves a string alone. */
  lemma Untouched(s: string, x: char, rep: string)
    requires x !in s
    ensures ReplaceAll(s, x, rep) == s
  {
    ReplaceAllAbsent(s, x, rep);
  }

  lemma PassesOneChar(c: char)
    ensures Passes([c]) == EscapeChar(c)
  {
    if c == '&' {
      ReplaceAllSingle(c, '&', "&amp;");
      PassesAfter(4, "&amp;");
    } else {
      ReplaceAllSingle(c, '&', "&amp;");
      if c == '<' {
        ReplaceAllSingle(c, '<', "&lt;");
        PassesAfter(3, "&lt;");
      } else {
        ReplaceAllSingle(c, '<', "&lt;");
        if c == '>' {
          ReplaceAllSingle(c, '>', "&gt;");
          PassesAfter(2, "&gt;");
        } else {
          ReplaceAllSingle(c, '>', "&gt;");
          if c == '"' {
            ReplaceAllSingle(c, '"', "&quot;");
            PassesAfter(1, "&quot;");
          } else {
            ReplaceAllSingle(c, '"', "&quot;");
            ReplaceAllSingle(c, '\'', "&#039;");
          }
        }
      }
    }
  }

  /** The last `n` passes leave an entity written by an earlier one alone. */
  lemma PassesAfter(n: nat, e: string)
    requires n <= 4
    requires '<' !in e && '>' !in e && '"' !in e && '\'' !in e
    ensures n >= 1 ==> ReplaceAll(e, '\'', "&#039;") == e
    ensures n >= 2 ==> ReplaceAll(ReplaceAll(e, '"', "&quot;"), '\'', "&#039;") == e
    ensures n >= 3 ==> ReplaceAll(ReplaceAll(ReplaceAll(e, '>', "&gt;"), '"', "&quot;"), '\'', "&#039;") == e
    ensures n >= 4 ==> ReplaceAll(ReplaceAll(ReplaceAll(ReplaceAll(e, '<', "&lt;"), '>', "&gt;"), '"', "&quot;"), '\'', "&#039;") == e
  {
    Untouched(e, '<', "&lt;");
    Untouched(e, '>', "&gt;");
    Untouched(e, '"', "&quot;");
    Untouched(e, '\'', "&#039;");
  }

  /** Because the ampersand pass runs first, the five passes escape every
      character exactly once: no entity the escaper writes is escaped again. */
  lemma {:induction false} EscapeIsPerCharacter(s: string)
    ensures EscapeHtml(Some(s)) == EscapeEach(s)
  {
    if |s| > 0 {
      assert s == [s[0]] + s[1..];
      PassesAppend([s[0]], s[1..]);
      PassesOneChar(s[0]);
      EscapeIsPerCharacter(s[1..]);
    } else {
      assert Passes(s) == [];
    }
  }

  /** Decoding the five entities gives the original text back. */
  lemma {:induction false} EscapeRoundTrip(s: string)
    ensures Unescape(EscapeHtml(Some(s))) == s
  {
    EscapeIsPerCharacter(s);
    UnescapeEach(s);
  }

  lemma {:induction false} UnescapeEach(s: string)
    ensures Unescape(EscapeEach(s)) == s
  {
    if |s| > 0 {
      UnescapeEach(s[1..]);
      UnescapeOne(s[0], EscapeEach(s[1..]));
      assert s == [s[0]] + s[1..];
    }
  }

  lemma {:induction false} UnescapeOne(c: char, rest: string)
    ensures Unescape(EscapeChar(c) + rest) == [c] + Unescape(rest)
  {
    if c == '&' {
      UnescapeAmp(rest);
    } else if c == '<' {
      UnescapeLt(rest);
    } else if c == '>' {
      UnescapeGt(rest);
    } else if c == '"' {
      UnescapeQuot(rest);
    } else if c == '\'' {
      UnescapeApos(rest);
    } else {
      UnescapePlain(c, rest);
    }
  }

  lemma {:induction false} UnescapeAmp(rest: string)
    ensures Unescape("&amp;" + rest) == "&" + Unescape(rest)
  {
    var e := "&amp;" + rest;
    assert e[..5] == "&amp;" && e[5..] == rest;
  }

  /** A character that starts no entity is decoded as itself. */
  lemma {:induction false} UnescapePlain(c: char, rest: string)
    requires c != '&'
    ensures Unescape([c] + rest) == [c] + Unescape(rest)
  {
    var e := [c] + rest;
    assert e[0] == c && e[1..] == rest;
    assert !StartsWith(e, "&amp;") && !StartsWith(e, "&lt;") && !StartsWith(e, "&gt;");
    assert !StartsWith(e, "&quot;") && !StartsWith(e, "&#039;");
  }

  lemma {:induction false} UnescapeLt(rest: string)
    ensures Unescape("&lt;" + rest) == "<" + Unescape(rest)
  {
    var e := "&lt;" + rest;
    assert e[1] == 'l';
    assert e[..4] == "&lt;" && e[4..] == rest;
  }

  lemma {:induction false} UnescapeGt(rest: string)
    ensures Unescape("&gt;" + rest) == ">" + Unescape(rest)
  {
    var e := "&gt;" + rest;
    assert e[1] == 'g';
    assert e[..4] == "&gt;" && e[4..] == rest;
  }

  lemma {:induction false} UnescapeQuot(rest: string)
    ensures Unescape("&quot;" + rest) == "\"" + Unescape(rest)
  {
    var e := "&quot;" + rest;
    assert e[1] == 'q';
    assert e[..6] == "&quot;" && e[6..] == rest;
  }

  lemma {:induction false} UnescapeApos(rest: string)
    ensures Unescape("&#039;" + rest) == "'" + Unescape(rest)
  {
    var e := "&#039;" + rest;
    assert e[1] == '#';
    assert e[..6] == "&#039;" && e[6..] == rest;
  }
}
