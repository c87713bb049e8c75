/**
 * What both native hosts share when they turn Markdown lines into Notes HTML:
 * HTML escaping (five replacements, ampersand first) and the non-breaking
 * spaces that stand for a line's indentation. The closed form `Escaped`
 * writes each character as its entity; the staged form follows the
 * replacements one at a time, and the two agree.
 */
module HtmlEscape {
  import opened Text

  /** The characters the hosts escape, in the order they replace them. */
  const Specials: seq<char> := ['&', '<', '>', '"', '\'']

  /** The entity each of `Specials` becomes. */
  const Entities: seq<string> := ["&amp;", "&lt;", "&gt;", "&quot;", "&#39;"]

  /** How one character is written in escaped text. */
  function EntityOf(c: char): string {
    if c == '&' then "&amp;"
    else if c == '<' then "&lt;"
    else if c == '>' then "&gt;"
    else if c == '"' then "&quot;"
    else if c == '\'' then "&#39;"
    else [c]
  }

  /** Escaped text: every character written as its entity. */
  function Escaped(s: string): string
    decreases |s|
  {
    if s == [] then [] else EntityOf(s[0]) + Escaped(s[1..])
  }

  lemma {:induction false} EscapedAppend(a: string, b: string)
    ensures Escaped(a + b) == Escaped(a) + Escaped(b)
    decreases |a|
  {
    if a == [] {
      assert a + b == b;
    } else {
      assert (a + b)[1..] == a[1..] + b;
      EscapedAppend(a[1..], b);
    }
  }

  // ---------------------------------------------------------------------
  // One replacement at a time

  /** A character after the first `k` replacements have run. */
  function StageChar(k: nat, c: char): string
    requires k <= |Specials|
  {
    if c in Specials[..k] then EntityOf(c) else [c]
  }

  /** Text after the first `k` replacements have run. */
  function StageText(k: nat, s: string): string
    requires k <= |Specials|
    decreases |s|
  {
    if s == [] then [] else StageChar(k, s[0]) + StageText(k, s[1..])
  }

  lemma {:induction false} StageStart(s: string)
    ensures StageText(0, s) == s
    decreases |s|
  {
    if s != [] {
      StageStart(s[1..]);
    }
  }

  lemma {:induction false} StageFinal(s: string)
    ensures StageText(|Specials|, s) == Escaped(s)
    decreases |s|
  {
    if s != [] {
      StageFinal(s[1..]);
      assert Specials[..|Specials|] == Specials;
    }
  }

  /** An entity holds none of the characters replaced after the ampersand. */
  lemma EntityFree(c: char, k: nat)
    requires 1 <= k < |Specials|
    ensures Specials[k] !in EntityOf(c)
  {
  }

  lemma StageCharStep(k: nat, c: char)
    requires k < |Specials|
    ensures ReplaceAll(StageChar(k, c), [Specials[k]], Entities[k]) == StageChar(k + 1, c)
  {
    var d := Specials[k];
    if c in Specials[..k] {
      assert k >= 1;
      EntityFree(c, k);
      ContainsSingle(EntityOf(c), d);
      ReplaceAllAbsent(EntityOf(c), [d], Entities[k]);
      assert c in Specials[..k + 1];
    } else {
      ReplaceCharSingle(c, d, Entities[k]);
      assert Specials[..k + 1] == Specials[..k] + [d];
      if c == d {
        assert EntityOf(d) == Entities[k];
      }
    }
  }

  /** The `k`-th replacement turns the text after `k` replacements into the text after `k + 1`. */
  lemma {:induction false} StageStep(k: nat, s: string)
    requires k < |Specials|
    ensures ReplaceAll(StageText(k, s), [Specials[k]], Entities[k]) == StageText(k + 1, s)
    decreases |s|
  {
    if s != [] {
      ReplaceCharAppend(StageChar(k, s[0]), StageText(k, s[1..]), Specials[k], Entities[k]);
      StageCharStep(k, s[0]);
      StageStep(k, s[1..]);
    }
  }

  /** The five replacements in the hosts' order, one after the other. */
  function ReplaceChain(text: string): string {
    ReplaceAll(ReplaceAll(ReplaceAll(ReplaceAll(ReplaceAll(
      text, "&", "&amp;"), "<", "&lt;"), ">", "&gt;"), "\"", "&quot;"), "'", "&#39;")
  }

  /** Replacing the ampersand first makes the chain write every character as its entity. */
  lemma ReplaceChainIsEscaped(text: string)
    ensures ReplaceChain(text) == Escaped(text)
  {
    StageStart(text);
    StageStep(0, text);
    StageStep(1, text);
    StageStep(2, text);
    StageStep(3, text);
    StageStep(4, text);
    StageFinal(text);
  }

  /** The order matters: with the ampersand last, an escaped `<` would be escaped twice. */
  lemma AmpersandLastDoubleEscapes()
    ensures ReplaceAll(ReplaceAll("<", "<", "&lt;"), "&", "&amp;") == "&amp;lt;"
    ensures ReplaceChain("<") == "&lt;"
  {
    ReplaceCharSingle('<', '<', "&lt;");
    ReplaceCharAppend("&", "lt;", '&', "&amp;");
    ReplaceCharSingle('&', '&', "&amp;");
    ContainsSingle("lt;", '&');
    ReplaceAllAbsent("lt;", "&", "&amp;");
    assert "&lt;" == "&" + "lt;";
    ReplaceChainIsEscaped("<");
  }

  // ---------------------------------------------------------------------
  // What escaped text is like

  lemma EntityHasNoMarkup(c: char)
    requires c !in Specials[1..]
    ensures '<' !in EntityOf(c) && '>' !in EntityOf(c) && '"' !in EntityOf(c) && '\'' !in EntityOf(c)
  {
  }

  /** Escaped text has no markup characters left. */
  lemma {:induction false} EscapedHasNoMarkup(s: string)
    ensures '<' !in Escaped(s) && '>' !in Escaped(s) && '"' !in Escaped(s) && '\'' !in Escaped(s)
    decreases |s|
  {
    if s != [] {
      EscapedHasNoMarkup(s[1..]);
      var e := EntityOf(s[0]);
      assert '<' !in e && '>' !in e && '"' !in e && '\'' !in e by {
        if s[0] !in Specials[1..] {
          EntityHasNoMarkup(s[0]);
        }
      }
    }
  }

  /** A character that is neither in the text nor part of an entity is not in the escaped text. */
  lemma {:induction false} EscapedKeepsAbsent(s: string, d: char)
    requires d !in s && d !in "&amp;&lt;&gt;&quot;&#39;"
    ensures d !in Escaped(s)
    decreases |s|
  {
    if s != [] {
      EscapedKeepsAbsent(s[1..], d);
    }
  }

  /** Text without special characters is its own escape. */
  lemma {:induction false} EscapedPlain(s: string)
    requires forall i :: 0 <= i < |s| ==> s[i] !in Specials
    ensures Escaped(s) == s
    decreases |s|
  {
    if s != [] {
      EscapedPlain(s[1..]);
    }
  }

  /** Decoding of the five entities, left to right; anything else is kept. */
  function Unescape(t: string): string
    decreases |t|
  {
    if t == [] then []
    else if StartsWith(t, "&amp;") then "&" + Unescape(t[5..])
    else if StartsWith(t, "&lt;") then "<" + Unescape(t[4..])
    else if StartsWith(t, "&gt;") then ">" + Unescape(t[4..])
    else if StartsWith(t, "&quot;") then "\"" + Unescape(t[6..])
    else if StartsWith(t, "&#39;") then "'" + Unescape(t[5..])
    else [t[0]] + Unescape(t[1..])
  }

  /** Decoding an entity followed by more text. */
  lemma UnescapeCase(c: char, e: string, rest: string)
    requires |e| >= 4 && e[0] == '&' && e == EntityOf(c)
    ensures Unescape(e + rest) == [c] + Unescape(rest)
  {
    var t := e + rest;
    assert t[..|e|] == e && t[|e|..] == rest;
    assert t[1] == e[1] && t[2] == e[2];
    if c == '&' {
      assert StartsWith(t, "&amp;");
    } else if c == '<' {
      assert !StartsWith(t, "&amp;") && StartsWith(t, "&lt;");
    } else if c == '>' {
      assert !StartsWith(t, "&amp;") && !StartsWith(t, "&lt;") && StartsWith(t, "&gt;");
    } else if c == '"' {
      assert !StartsWith(t, "&amp;") && !StartsWith(t, "&lt;") && !StartsWith(t, "&gt;") && StartsWith(t, "&quot;");
    } else {
      assert !StartsWith(t, "&amp;") && !StartsWith(t, "&lt;") && !StartsWith(t, "&gt;") && !StartsWith(t, "&quot;");
      assert StartsWith(t, "&#39;");
    }
  }

  lemma UnescapeEntity(c: char, rest: string)
    ensures Unescape(EntityOf(c) + rest) == [c] + Unescape(rest)
  {
    if c in Specials {
      UnescapeCase(c, EntityOf(c), rest);
    } else {
      var t := [c] + rest;
      assert t[0] == c && t[1..] == rest;
      assert !StartsWith(t, "&amp;") && !StartsWith(t, "&lt;") && !StartsWith(t, "&gt;");
      assert !StartsWith(t, "&quot;") && !StartsWith(t, "&#39;");
    }
  }

  /** Escaping loses nothing: decoding the entities gives the text back. */
  lemma {:induction false} UnescapeEscaped(s: string)
    ensures Unescape(Escaped(s)) == s
    decreases |s|
  {
    if s != [] {
      UnescapeEntity(s[0], Escaped(s[1..]));
      UnescapeEscaped(s[1..]);
    }
  }

  // ---------------------------------------------------------------------
  // Indentation

  /** The characters of the leading-whitespace pattern `^[ \t]+`. */
  predicate IsIndent(c: char) {
    c == ' ' || c == '\t'
  }

  /** The length of the leading run of spaces and tabs. */
  function IndentLength(line: string): (n: nat)
    ensures n <= |line|
    ensures forall k :: 0 <= k < n ==> IsIndent(line[k])
    ensures n < |line| ==> !IsIndent(line[n])
    decreases |line|
  {
    if line != [] && IsIndent(line[0]) then 1 + IndentLength(line[1..]) else 0
  }

  /** Columns of indentation: a space is one, a tab four. */
  function IndentWidth(ws: string): nat
    decreases |ws|
  {
    if ws == [] then 0 else (if ws[0] == '\t' then 4 else 1) + IndentWidth(ws[1..])
  }

  /** One non-breaking space per column. */
  function Nbsp(n: nat): string {
    Repeat("&nbsp;", n)
  }

  predicate AllIndent(ws: string) {
    forall k :: 0 <= k < |ws| ==> IsIndent(ws[k])
  }

  /** Expanding each tab of an indentation to four spaces leaves one space per column. */
  lemma {:induction false} TabsExpanded(ws: string)
    requires AllIndent(ws)
    ensures ReplaceAll(ws, "\t", "    ") == Repeat(" ", IndentWidth(ws))
    decreases |ws|
  {
    if ws != [] {
      var c, rest := ws[0], ws[1..];
      assert ws == [c] + rest;
      ReplaceCharAppend([c], rest, '\t', "    ");
      ReplaceCharSingle(c, '\t', "    ");
      TabsExpanded(rest);
      var w := if c == '\t' then 4 else 1;
      assert Repeat(" ", 1) == " ";
      assert Repeat(" ", 2) == " " + " ";
      assert Repeat(" ", 4) == " " + " " + Repeat(" ", 2);
      assert ReplaceAll([c], "\t", "    ") == Repeat(" ", w);
      RepeatAdd(" ", w, IndentWidth(rest));
    }
  }
}
