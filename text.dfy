/**
  * String operations the clipper relies on, stated once for every runtime:
  * whitespace sets (JavaScript, Python and Swift each have their own), trimming,
  * splitting and joining, substring replacement, ASCII lower-casing and
  * decimal numerals.
  */
module Text {
  import opened Common

  /** A notion of whitespace: the characters a runtime's trim or whitespace test accepts. */
  datatype Charset = Charset(chars: seq<char>)

  /** Unicode general category Zs (space separators). */
  const ZsChars: seq<char> := [
    ' ', '\U{00A0}', '\U{1680}', '\U{2000}', '\U{2001}', '\U{2002}', '\U{2003}', '\U{2004}', '\U{2005}',
    '\U{2006}', '\U{2007}', '\U{2008}', '\U{2009}', '\U{200A}', '\U{202F}', '\U{205F}', '\U{3000}'
  ]

  /** String.prototype.trim and the regular-expression class \s: Zs, tab, LF, VT, FF, CR, BOM, LS, PS. */
  const JsWhitespace := Charset(ZsChars + ['\t', '\n', '\U{000B}', '\U{000C}', '\r', '\U{FEFF}', '\U{2028}', '\U{2029}'])

  /** Python's str.strip() and str.isspace(): Zs, U+0009 to U+000D, U+001C to U+001F, NEL, LS, PS. */
  const PyWhitespace := Charset(ZsChars + [
    '\t', '\n', '\U{000B}', '\U{000C}', '\r', '\U{001C}', '\U{001D}', '\U{001E}', '\U{001F}',
    '\U{0085}', '\U{2028}', '\U{2029}'])

  /** Swift's CharacterSet.whitespaces: Zs and tab. */
  const SwiftWhitespaces := Charset(ZsChars + ['\t'])

  /** CharacterSet.newlines: U+000A to U+000D, NEL, LS, PS. */
  const SwiftNewlines: seq<char> := ['\n', '\U{000B}', '\U{000C}', '\r', '\U{0085}', '\U{2028}', '\U{2029}']

  /** Swift's CharacterSet.whitespacesAndNewlines. */
  const SwiftWhitespacesAndNewlines := Charset(SwiftWhitespaces.chars + SwiftNewlines)

  predicate IsSpace(cs: Charset, c: char) {
    Listed(c, cs.chars)
  }

  /** `c` occurs in `chars`, looked up one entry at a time. */
  predicate Listed(c: char, chars: seq<char>) {
    chars != [] && (c == chars[0] || Listed(c, chars[1..]))
  }

  lemma {:induction false} ListedIn(c: char, chars: seq<char>)
    ensures Listed(c, chars) <==> c in chars
  {
    if chars != [] {
      ListedIn(c, chars[1..]);
      assert chars == [chars[0]] + chars[1..];
    }
  }

  /** No visible ASCII character (letters, digits, punctuation) is JavaScript whitespace. */
  lemma LetterNotJsSpace(c: char)
    requires '!' <= c <= '~'
    ensures !IsSpace(JsWhitespace, c)
  {
    var chars := JsWhitespace.chars;
    assert forall k :: 0 <= k < |chars| ==> chars[k] < '!' || chars[k] > '~';
    ListedIn(c, chars);
  }

  /** No visible ASCII character is Swift whitespace or newline. */
  lemma LetterNotSwiftSpace(c: char)
    requires '!' <= c <= '~'
    ensures !IsSpace(SwiftWhitespacesAndNewlines, c)
  {
    var chars := SwiftWhitespacesAndNewlines.chars;
    assert forall k :: 0 <= k < |chars| ==> chars[k] < '!' || chars[k] > '~';
    ListedIn(c, chars);
  }

  predicate AllSpace(cs: Charset, s: string) {
    forall i :: 0 <= i < |s| ==> IsSpace(cs, s[i])
  }

  /** Removes leading whitespace. */
  function TrimStart(cs: Charset, s: string): (r: string)
    ensures |r| <= |s| && r == s[|s| - |r|..]
    ensures r != [] ==> !IsSpace(cs, r[0])
    decreases |s|
  {
    if s != [] && IsSpace(cs, s[0]) then TrimStart(cs, s[1..]) else s
  }

  /** What `TrimStart` removes is whitespace. */
  lemma {:induction false} TrimStartRemovesSpace(cs: Charset, s: string)
    ensures AllSpace(cs, s[..|s| - |TrimStart(cs, s)|])
    decreases |s|
  {
    if s != [] && IsSpace(cs, s[0]) {
      TrimStartRemovesSpace(cs, s[1..]);
      var n := |s| - |TrimStart(cs, s)|;
      assert s[..n] == [s[0]] + s[1..][..n - 1];
      AllSpaceConcat(cs, [s[0]], s[1..][..n - 1]);
    }
  }

  /** Removes trailing whitespace. */
  function TrimEnd(cs: Charset, s: string): (r: string)
    ensures |r| <= |s| && r == s[..|r|]
    ensures r != [] ==> !IsSpace(cs, r[|r| - 1])
    decreases |s|
  {
    if s != [] && IsSpace(cs, s[|s| - 1]) then TrimEnd(cs, s[..|s| - 1]) else s
  }

  /** What `TrimEnd` removes is whitespace. */
  lemma {:induction false} TrimEndRemovesSpace(cs: Charset, s: string)
    ensures AllSpace(cs, s[|TrimEnd(cs, s)|..])
    decreases |s|
  {
    if s != [] && IsSpace(cs, s[|s| - 1]) {
      var init := s[..|s| - 1];
      TrimEndRemovesSpace(cs, init);
      var m := |TrimEnd(cs, s)|;
      assert s[m..] == init[m..] + [s[|s| - 1]];
      AllSpaceConcat(cs, init[m..], [s[|s| - 1]]);
    }
  }

  lemma AllSpaceConcat(cs: Charset, a: string, b: string)
    ensures AllSpace(cs, a + b) <==> AllSpace(cs, a) && AllSpace(cs, b)
  {
    if AllSpace(cs, a + b) {
      forall i | 0 <= i < |a| ensures IsSpace(cs, a[i]) {
        assert a[i] == (a + b)[i];
      }
      forall i | 0 <= i < |b| ensures IsSpace(cs, b[i]) {
        assert b[i] == (a + b)[|a| + i];
      }
    }
    if AllSpace(cs, a) && AllSpace(cs, b) {
      forall i | 0 <= i < |a + b| ensures IsSpace(cs, (a + b)[i]) {
        if i < |a| { assert (a + b)[i] == a[i]; } else { assert (a + b)[i] == b[i - |a|]; }
      }
    }
  }

  /** Removes whitespace at both ends: leading whitespace first, then trailing. */
  function Trim(cs: Charset, s: string): string
    decreases |s|
  {
    if s != [] && IsSpace(cs, s[0]) then Trim(cs, s[1..]) else TrimEnd(cs, s)
  }

  /** Trimming leaves nothing exactly when all is whitespace, and otherwise no whitespace at either end. */
  lemma {:induction false} TrimEnds(cs: Charset, s: string)
    ensures Trim(cs, s) == [] <==> AllSpace(cs, s)
    ensures Trim(cs, s) != [] ==> !IsSpace(cs, Trim(cs, s)[0]) && !IsSpace(cs, Trim(cs, s)[|Trim(cs, s)| - 1])
    decreases |s|
  {
    if s != [] && IsSpace(cs, s[0]) {
      AllSpaceTail(cs, s);
      TrimEnds(cs, s[1..]);
    } else {
      TrimEndKeepsFirst(cs, s);
    }
  }

  lemma AllSpaceTail(cs: Charset, s: string)
    requires s != [] && IsSpace(cs, s[0])
    ensures AllSpace(cs, s) <==> AllSpace(cs, s[1..])
  {
    assert s == [s[0]] + s[1..];
    AllSpaceConcat(cs, [s[0]], s[1..]);
  }

  /** Text not starting with whitespace keeps its first character under `TrimEnd`. */
  lemma TrimEndKeepsFirst(cs: Charset, s: string)
    requires s != [] ==> !IsSpace(cs, s[0])
    ensures TrimEnd(cs, s) == [] <==> AllSpace(cs, s)
    ensures TrimEnd(cs, s) != [] ==> TrimEnd(cs, s)[0] == s[0]
  {
    TrimEndRemovesSpace(cs, s);
  }

  /** Trailing whitespace after text that ends in a non-space character is all that `TrimEnd` removes. */
  lemma {:induction false} TrimEndAppendSpace(cs: Charset, p: string, w: string)
    requires AllSpace(cs, w) && (p != [] ==> !IsSpace(cs, p[|p| - 1]))
    ensures TrimEnd(cs, p + w) == p
    decreases |w|
  {
    if w == [] {
      assert p + w == p;
    } else {
      var s := p + w;
      assert s[|s| - 1] == w[|w| - 1];
      assert s[..|s| - 1] == p + w[..|w| - 1];
      TrimEndAppendSpace(cs, p, w[..|w| - 1]);
    }
  }

  /** Text with no whitespace at its ends, followed by whitespace, trims to itself. */
  lemma TrimAppendSpace(cs: Charset, p: string, w: string)
    requires AllSpace(cs, w) && p != [] && !IsSpace(cs, p[0]) && !IsSpace(cs, p[|p| - 1])
    ensures Trim(cs, p + w) == p
  {
    TrimEndAppendSpace(cs, p, w);
    assert (p + w)[0] == p[0];
  }

  /** The line feed is whitespace to JavaScript. */
  lemma NewlineIsJsSpace()
    ensures IsSpace(JsWhitespace, '\n')
  {
    ListedIn('\n', JsWhitespace.chars);
    assert JsWhitespace.chars[18] == '\n';
  }

  /** The number of characters `Trim` removes from the front. */
  function TrimOffset(cs: Charset, s: string): (k: nat)
    ensures k <= |s|
    decreases |s|
  {
    if s != [] && IsSpace(cs, s[0]) then 1 + TrimOffset(cs, s[1..]) else 0
  }

  /** The trimmed text is the slice of `s` that starts after the leading whitespace. */
  lemma {:induction false} TrimIsSlice(cs: Charset, s: string)
    ensures TrimOffset(cs, s) + |Trim(cs, s)| <= |s|
    ensures Trim(cs, s) == s[TrimOffset(cs, s)..TrimOffset(cs, s) + |Trim(cs, s)|]
    decreases |s|
  {
    if s != [] && IsSpace(cs, s[0]) {
      TrimIsSlice(cs, s[1..]);
      assert Trim(cs, s) == Trim(cs, s[1..]);
      var k := TrimOffset(cs, s[1..]);
      var m := |Trim(cs, s)|;
      assert s[k + 1..k + 1 + m] == s[1..][k..k + m];
    }
  }

  /** What `Trim` removes, in front and behind, is whitespace. */
  lemma {:induction false} TrimRemovesSpace(cs: Charset, s: string)
    ensures TrimOffset(cs, s) + |Trim(cs, s)| <= |s|
    ensures AllSpace(cs, s[..TrimOffset(cs, s)]) && AllSpace(cs, s[TrimOffset(cs, s) + |Trim(cs, s)|..])
    decreases |s|
  {
    if s != [] && IsSpace(cs, s[0]) {
      TrimRemovesSpace(cs, s[1..]);
      var k := TrimOffset(cs, s[1..]);
      var m := |Trim(cs, s)|;
      assert s[k + 1 + m..] == s[1..][k + m..];
      assert s[..k + 1] == [s[0]] + s[1..][..k];
      AllSpaceConcat(cs, [s[0]], s[1..][..k]);
    } else {
      TrimEndRemovesSpace(cs, s);
      assert s[..0] == [];
    }
  }

  /** The trimmed text is the slice of `s` between a whitespace prefix and a whitespace suffix. */
  lemma TrimSlice(cs: Charset, s: string) returns (k: nat)
    ensures k + |Trim(cs, s)| <= |s| && Trim(cs, s) == s[k..k + |Trim(cs, s)|]
    ensures AllSpace(cs, s[..k]) && AllSpace(cs, s[k + |Trim(cs, s)|..])
  {
    TrimIsSlice(cs, s);
    TrimRemovesSpace(cs, s);
    k := TrimOffset(cs, s);
  }

  /** Trimming brings in no character. */
  lemma TrimKeepsAbsent(cs: Charset, s: string, d: char)
    requires d !in s
    ensures d !in Trim(cs, s)
  {
    var k := TrimSlice(cs, s);
    var t := Trim(cs, s);
    forall j | 0 <= j < |t|
      ensures t[j] != d
    {
      assert t[j] == s[k + j];
    }
  }

  lemma TrimOfTrimmed(cs: Charset, s: string)
    requires s != [] ==> !IsSpace(cs, s[0]) && !IsSpace(cs, s[|s| - 1])
    ensures Trim(cs, s) == s
  {
  }

  /** Trimming whitespace off both ends of text with no whitespace at its ends changes nothing. */
  lemma TrimIdempotent(cs: Charset, s: string)
    ensures Trim(cs, Trim(cs, s)) == Trim(cs, s)
  {
    TrimEnds(cs, s);
    TrimOfTrimmed(cs, Trim(cs, s));
  }

  predicate StartsWith(s: string, prefix: string) {
    |prefix| <= |s| && s[..|prefix|] == prefix
  }

  predicate EndsWith(s: string, suffix: string) {
    |suffix| <= |s| && s[|s| - |suffix|..] == suffix
  }

  lemma EndsWithTrans(a: string, b: string, c: string)
    requires EndsWith(c, b) && EndsWith(b, a)
    ensures EndsWith(c, a)
  {
    assert c[|c| - |a|..] == c[|c| - |b|..][|b| - |a|..];
  }

  /** Two endings of the same text: the shorter is an ending of the longer. */
  lemma EndingsNest(s: string, a: string, b: string)
    requires EndsWith(s, a) && EndsWith(s, b) && |a| <= |b|
    ensures EndsWith(b, a)
  {
    assert s[|s| - |a|..] == s[|s| - |b|..][|b| - |a|..];
  }

  /** A concatenation starts with its first part, ends with its last, and holds the middle one between them. */
  lemma Affixes(a: string, b: string, c: string)
    ensures StartsWith(a + b + c, a) && StartsWith(a + b + c, a + b) && EndsWith(a + b + c, c) && EndsWith(a + b + c, b + c)
    ensures (a + b + c)[|a|..|a + b + c| - |c|] == b
  {
    assert (a + b + c)[..|a|] == a;
    assert (a + b + c)[..|a + b|] == a + b;
    assert (a + b + c)[|a + b|..] == c;
    assert (a + b + c)[|a|..] == b + c;
  }

  lemma PrefixOfAppend(a: string, b: string)
    ensures StartsWith(a + b, a)
  {
    assert (a + b)[..|a|] == a;
  }

  lemma StartsWithTrans(a: string, b: string, c: string)
    requires StartsWith(c, b) && StartsWith(b, a)
    ensures StartsWith(c, a)
  {
    assert c[..|a|] == c[..|b|][..|a|];
  }

  /** A slice of a slice is a slice of the whole. */
  lemma SliceOfSlice(s: string, k: nat, m: nat, i: nat, j: nat)
    requires k + m <= |s| && i <= j <= m
    ensures s[k..k + m][i..j] == s[k + i..k + j]
  {
    var a := s[k..k + m][i..j];
    var b := s[k + i..k + j];
    assert forall q :: 0 <= q < |a| ==> a[q] == s[k + i + q] == b[q];
  }

  /** `s` has `p` as a substring (`includes`, `in`, `contains`). */
  predicate Contains(s: string, p: string)
    decreases |s|
  {
    StartsWith(s, p) || (s != [] && Contains(s[1..], p))
  }

  lemma ContainsAt(s: string, p: string, i: nat)
    requires i + |p| <= |s| && s[i..i + |p|] == p
    ensures Contains(s, p)
    decreases i
  {
    if i > 0 {
      assert s[1..][i - 1..i - 1 + |p|] == p;
      ContainsAt(s[1..], p, i - 1);
    }
  }

  lemma ContainsWitness(s: string, p: string) returns (i: nat)
    requires Contains(s, p)
    ensures i + |p| <= |s| && s[i..i + |p|] == p
    decreases |s|
  {
    if StartsWith(s, p) {
      i := 0;
    } else {
      var j := ContainsWitness(s[1..], p);
      i := j + 1;
      assert s[i..i + |p|] == s[1..][j..j + |p|];
    }
  }

  lemma ContainsSingle(s: string, c: char)
    ensures Contains(s, [c]) <==> c in s
  {
    if c in s {
      var i :| 0 <= i < |s| && s[i] == c;
      ContainsAt(s, [c], i);
    }
    if Contains(s, [c]) {
      var i := ContainsWitness(s, [c]);
      assert s[i] == c;
    }
  }

  /** What a slice contains, the whole contains. */
  lemma ContainsOfSlice(s: string, k: nat, m: nat, p: string)
    requires k + m <= |s| && Contains(s[k..k + m], p)
    ensures Contains(s, p)
  {
    var i := ContainsWitness(s[k..k + m], p);
    SliceOfSlice(s, k, m, i, i + |p|);
    ContainsAt(s, p, k + i);
  }

  /** An occurrence of a needle with no whitespace at its ends lies inside the whitespace-free core. */
  lemma OccurrenceInCore(cs: Charset, s: string, k: nat, m: nat, p: string, i: nat)
    requires k + m <= |s| && AllSpace(cs, s[..k]) && AllSpace(cs, s[k + m..])
    requires p != [] && !IsSpace(cs, p[0]) && !IsSpace(cs, p[|p| - 1])
    requires i + |p| <= |s| && s[i..i + |p|] == p
    ensures k <= i && i + |p| <= k + m
  {
    assert s[i] == p[0] && s[i + |p| - 1] == p[|p| - 1];
  }

  /** An occurrence inside the core is an occurrence in the core slice. */
  lemma CoreContains(s: string, k: nat, m: nat, p: string, i: nat)
    requires k <= i && i + |p| <= k + m <= |s| && s[i..i + |p|] == p
    ensures Contains(s[k..k + m], p)
  {
    SliceOfSlice(s, k, m, i - k, i - k + |p|);
    ContainsAt(s[k..k + m], p, i - k);
  }

  /** What the first part contains, the concatenation contains. */
  lemma ContainsInFront(a: string, b: string, p: string)
    requires Contains(a, p)
    ensures Contains(a + b, p)
  {
    assert (a + b)[0..0 + |a|] == a;
    ContainsOfSlice(a + b, 0, |a|, p);
  }

  /** What the last part contains, the concatenation contains. */
  lemma ContainsInBack(a: string, b: string, p: string)
    requires Contains(b, p)
    ensures Contains(a + b, p)
  {
    var i := ContainsWitness(b, p);
    assert (a + b)[|a| + i..|a| + i + |p|] == b[i..i + |p|];
    ContainsAt(a + b, p, |a| + i);
  }

  /** A needle with no whitespace at its ends cannot overlap whitespace around a slice. */
  lemma ContainsInCore(cs: Charset, s: string, k: nat, m: nat, p: string)
    requires k + m <= |s| && AllSpace(cs, s[..k]) && AllSpace(cs, s[k + m..])
    requires p != [] && !IsSpace(cs, p[0]) && !IsSpace(cs, p[|p| - 1])
    ensures Contains(s[k..k + m], p) <==> Contains(s, p)
  {
    if Contains(s[k..k + m], p) {
      ContainsOfSlice(s, k, m, p);
    }
    if Contains(s, p) {
      var i := ContainsWitness(s, p);
      OccurrenceInCore(cs, s, k, m, p, i);
      CoreContains(s, k, m, p, i);
    }
  }

  /** A needle with no whitespace at its ends is found in the trimmed text exactly when it is found in the text. */
  lemma ContainsTrimmed(cs: Charset, s: string, p: string)
    requires p != [] && !IsSpace(cs, p[0]) && !IsSpace(cs, p[|p| - 1])
    ensures Contains(Trim(cs, s), p) <==> Contains(s, p)
  {
    var k := TrimSlice(cs, s);
    ContainsInCore(cs, s, k, |Trim(cs, s)|, p);
  }

  /** ASCII lower-casing of one character. */
  function LowerChar(c: char): char {
    if 'A' <= c <= 'Z' then (c as int + 32) as char else c
  }

  /** Lower-casing (`toLowerCase`, `lower()`, `lowercased()`), restricted to ASCII letters. */
  function ToLower(s: string): (r: string)
    ensures |r| == |s|
  {
    if s == [] then [] else [LowerChar(s[0])] + ToLower(s[1..])
  }

  /** Lower-casing works character by character. */
  lemma {:induction false} ToLowerAt(s: string)
    ensures forall i :: 0 <= i < |s| ==> ToLower(s)[i] == LowerChar(s[i])
  {
    if s != [] {
      ToLowerAt(s[1..]);
    }
  }

  /** Lower-casing twice is lower-casing once. */
  lemma {:induction false} ToLowerIdempotent(s: string)
    ensures ToLower(ToLower(s)) == ToLower(s)
  {
    if s != [] {
      ToLowerIdempotent(s[1..]);
      assert ToLower(s)[1..] == ToLower(s[1..]);
    }
  }

  /** Text without ASCII capitals is already lower-case. */
  lemma {:induction false} ToLowerNoCapitals(s: string)
    requires forall i :: 0 <= i < |s| ==> !('A' <= s[i] <= 'Z')
    ensures ToLower(s) == s
  {
    if s != [] {
      ToLowerNoCapitals(s[1..]);
    }
  }

  /** The first index of `c` in `s`, or `|s|` when absent. */
  function IndexOfChar(s: string, c: char): (i: nat)
    ensures i <= |s| && c !in s[..i]
    ensures i < |s| ==> s[i] == c
    decreases |s|
  {
    if s == [] then 0 else if s[0] == c then 0 else 1 + IndexOfChar(s[1..], c)
  }

  lemma IndexOfCharAt(s: string, c: char, j: nat)
    requires j < |s| && s[j] == c && c !in s[..j]
    ensures IndexOfChar(s, c) == j
  {
    if j > 0 {
      assert s[1..][..j - 1] == s[1..j];
      IndexOfCharAt(s[1..], c, j - 1);
    }
  }

  /** `s.split(sep)` for a one-character separator. */
  function Split(s: string, sep: char): (r: seq<string>)
    ensures |r| >= 1
    ensures forall k :: 0 <= k < |r| ==> sep !in r[k]
    decreases |s|
  {
    var i := IndexOfChar(s, sep);
    if i == |s| then [s] else [s[..i]] + Split(s[i + 1..], sep)
  }

  /** `n` copies of `s` (`s * n`, `String(repeating:count:)`). */
  function Repeat(s: string, n: nat): (r: string)
    ensures |r| == n * |s|
  {
    if n == 0 then [] else s + Repeat(s, n - 1)
  }

  lemma {:induction false} RepeatAdd(s: string, m: nat, n: nat)
    ensures Repeat(s, m) + Repeat(s, n) == Repeat(s, m + n)
    decreases m
  {
    if m == 0 {
      assert Repeat(s, m) + Repeat(s, n) == Repeat(s, n);
    } else {
      RepeatAdd(s, m - 1, n);
    }
  }

  /** `sep.join(parts)` / `parts.join(sep)`. */
  function Join(parts: seq<string>, sep: string): string
  {
    if |parts| == 0 then "" else if |parts| == 1 then parts[0] else parts[0] + sep + Join(parts[1..], sep)
  }

  lemma JoinCons(first: string, parts: seq<string>, sep: string)
    requires |parts| >= 1
    ensures Join([first] + parts, sep) == first + sep + Join(parts, sep)
  {
    assert ([first] + parts)[1..] == parts;
  }

  /** A last line, a blank line and a closing `---` rule, joined with LF. */
  lemma JoinBeforeRule(last: string)
    ensures Join([last, "", "---", ""], "\n") == last + "\n\n---\n"
  {
    JoinCons("---", [""], "\n");
    JoinCons("", ["---", ""], "\n");
    JoinCons(last, ["", "---", ""], "\n");
    assert [last, "", "---", ""] == [last] + ["", "---", ""];
    assert ["", "---", ""] == [""] + ["---", ""];
  }

  lemma JoinPair(a: string, b: string, sep: string)
    ensures Join([a, b], sep) == a + (sep + b)
  {
    assert [a, b][1..] == [b];
  }

  lemma JoinAppend(parts: seq<string>, last: string, sep: string)
    requires |parts| >= 1
    ensures Join(parts + [last], sep) == Join(parts, sep) + sep + last
  {
    if |parts| == 1 {
      assert parts + [last] == [parts[0], last];
    } else {
      assert (parts + [last])[1..] == parts[1..] + [last];
      JoinAppend(parts[1..], last, sep);
    }
  }

  /** A character absent from the text is absent from every piece of its split. */
  lemma {:induction false} SplitKeepsAbsent(s: string, sep: char, d: char)
    requires d !in s
    ensures forall k :: 0 <= k < |Split(s, sep)| ==> d !in Split(s, sep)[k]
    decreases |s|
  {
    var i := IndexOfChar(s, sep);
    if i < |s| {
      assert forall c :: c in s[..i] ==> c in s;
      assert forall c :: c in s[i + 1..] ==> c in s;
      SplitKeepsAbsent(s[i + 1..], sep, d);
    }
  }

  /** A character absent from every piece and from the separator is absent from the join. */
  lemma {:induction false} JoinKeepsAbsent(parts: seq<string>, sep: string, d: char)
    requires d !in sep && forall k :: 0 <= k < |parts| ==> d !in parts[k]
    ensures d !in Join(parts, sep)
  {
    if |parts| > 1 {
      JoinKeepsAbsent(parts[1..], sep, d);
    }
  }

  /** Joining the pieces of a split with the separator gives back the text. */
  lemma {:induction false} JoinSplit(s: string, sep: char)
    ensures Join(Split(s, sep), [sep]) == s
    decreases |s|
  {
    var i := IndexOfChar(s, sep);
    if i < |s| {
      JoinSplit(s[i + 1..], sep);
      assert s == s[..i] + [sep] + s[i + 1..];
    }
  }

  /** Splitting a join of separator-free pieces gives back the pieces. */
  lemma {:induction false} SplitJoin(parts: seq<string>, sep: char)
    requires |parts| >= 1 && forall k :: 0 <= k < |parts| ==> sep !in parts[k]
    ensures Split(Join(parts, [sep]), sep) == parts
  {
    var s := Join(parts, [sep]);
    if |parts| == 1 {
      assert sep !in s;
    } else {
      var p := parts[0];
      assert s == p + [sep] + Join(parts[1..], [sep]);
      assert s[..|p|] == p;
      IndexOfCharAt(s, sep, |p|);
      var i := IndexOfChar(s, sep);
      assert s[..i] == p;
      assert s[i + 1..] == Join(parts[1..], [sep]);
      SplitJoin(parts[1..], sep);
      assert [p] + parts[1..] == parts;
    }
  }

  /**
    * Replaces every occurrence of `pat`, scanning left to right without overlaps:
    * JavaScript `replace` with a global pattern, Python `str.replace`, Swift
    * `replacingOccurrences(of:with:)`.
    */
  function ReplaceAll(s: string, pat: string, rep: string): string
    requires |pat| > 0
    decreases |s|
  {
    if |s| < |pat| then s
    else if s[..|pat|] == pat then rep + ReplaceAll(s[|pat|..], pat, rep)
    else [s[0]] + ReplaceAll(s[1..], pat, rep)
  }

  /** Replacing a pattern that does not occur changes nothing. */
  lemma {:induction false} ReplaceAllAbsent(s: string, pat: string, rep: string)
    requires |pat| > 0 && !Contains(s, pat)
    ensures ReplaceAll(s, pat, rep) == s
    decreases |s|
  {
    if |s| >= |pat| {
      assert !StartsWith(s, pat);
      ReplaceAllAbsent(s[1..], pat, rep);
    }
  }

  /** A character found neither in the text nor in the replacement is not in the result. */
  lemma {:induction false} ReplaceAllKeepsAbsent(s: string, pat: string, rep: string, d: char)
    requires |pat| > 0 && d !in s && d !in rep
    ensures d !in ReplaceAll(s, pat, rep)
    decreases |s|
  {
    if |s| >= |pat| {
      if s[..|pat|] == pat {
        ReplaceAllKeepsAbsent(s[|pat|..], pat, rep, d);
      } else {
        ReplaceAllKeepsAbsent(s[1..], pat, rep, d);
      }
    }
  }

  /** Where the pattern occurs, its replacement shows up in the result. */
  lemma {:induction false} ReplaceAllShowsReplacement(s: string, pat: string, rep: string)
    requires |pat| > 0 && Contains(s, pat)
    ensures Contains(ReplaceAll(s, pat, rep), rep)
    decreases |s|
  {
    var i := ContainsWitness(s, pat);
    if s[..|pat|] == pat {
      PrefixOfAppend(rep, ReplaceAll(s[|pat|..], pat, rep));
    } else {
      assert Contains(s[1..], pat);
      ReplaceAllShowsReplacement(s[1..], pat, rep);
      ContainsInBack([s[0]], ReplaceAll(s[1..], pat, rep), rep);
    }
  }

  /** With a one-character pattern, replacement distributes over concatenation. */
  lemma {:induction false} ReplaceCharAppend(a: string, b: string, c: char, rep: string)
    ensures ReplaceAll(a + b, [c], rep) == ReplaceAll(a, [c], rep) + ReplaceAll(b, [c], rep)
    decreases |a|
  {
    if a == [] {
      assert a + b == b;
    } else {
      assert (a + b)[1..] == a[1..] + b;
      assert (a + b)[..1] == a[..1];
      ReplaceCharAppend(a[1..], b, c, rep);
      if a[..1] == [c] {
        assert ReplaceAll(a + b, [c], rep) == rep + ReplaceAll(a[1..] + b, [c], rep);
        assert ReplaceAll(a, [c], rep) == rep + ReplaceAll(a[1..], [c], rep);
      } else {
        assert ReplaceAll(a + b, [c], rep) == [a[0]] + ReplaceAll(a[1..] + b, [c], rep);
        assert ReplaceAll(a, [c], rep) == [a[0]] + ReplaceAll(a[1..], [c], rep);
      }
    }
  }

  /** With a one-character pattern, the pattern character is gone unless the replacement has it. */
  lemma {:induction false} ReplaceCharRemoves(s: string, c: char, rep: string)
    requires c !in rep
    ensures c !in ReplaceAll(s, [c], rep)
    decreases |s|
  {
    if s != [] {
      ReplaceCharRemoves(s[1..], c, rep);
    }
  }

  lemma ReplaceCharSingle(x: char, c: char, rep: string)
    ensures ReplaceAll([x], [c], rep) == if x == c then rep else [x]
  {
    assert [x][1..] == [];
  }

  predicate IsDigit(c: char) {
    '0' <= c <= '9'
  }

  predicate AllDigits(s: string) {
    forall i :: 0 <= i < |s| ==> IsDigit(s[i])
  }

  function DigitChar(d: nat): (c: char)
    requires d < 10
    ensures IsDigit(c) && c as int - '0' as int == d
  {
    ('0' as int + d) as char
  }

  /** The value of a string of decimal digits. */
  function DigitsValue(s: string): nat
    requires AllDigits(s)
  {
    if s == [] then 0 else DigitsValue(s[..|s| - 1]) * 10 + (s[|s| - 1] as int - '0' as int)
  }

  /** The decimal numeral of `n`, as `String(n)` or `str(n)` print it. */
  function NatToString(n: nat): (r: string)
    ensures |r| >= 1 && AllDigits(r)
  {
    if n < 10 then [DigitChar(n)] else NatToString(n / 10) + [DigitChar(n % 10)]
  }

  /** A non-empty string made only of decimal digits, read as a natural number. */
  function ParseNat(s: string): (r: Option<nat>)
    ensures r.Some? <==> s != [] && AllDigits(s)
  {
    if s != [] && AllDigits(s) then Some(DigitsValue(s)) else None
  }

  /** Reading back a printed numeral gives the number. */
  lemma {:induction false} ParseNatToString(n: nat)
    ensures ParseNat(NatToString(n)) == Some(n)
  {
    var s := NatToString(n);
    if n < 10 {
      assert s[..|s| - 1] == [];
      assert DigitsValue(s) == n;
    } else {
      ParseNatToString(n / 10);
      assert s[..|s| - 1] == NatToString(n / 10);
      assert DigitsValue(s) == (n / 10) * 10 + n % 10;
    }
  }

  /** Different numbers print differently. */
  lemma NatToStringInjective(m: nat, n: nat)
    requires NatToString(m) == NatToString(n)
    ensures m == n
  {
    ParseNatToString(m);
    ParseNatToString(n);
  }

  /** The index of the first whitespace character, or `|s|`. */
  function IndexOfSpace(cs: Charset, s: string): (i: nat)
    ensures i <= |s| && forall k :: 0 <= k < i ==> !IsSpace(cs, s[k])
    ensures i < |s| ==> IsSpace(cs, s[i])
    decreases |s|
  {
    if s == [] then 0 else if IsSpace(cs, s[0]) then 0 else 1 + IndexOfSpace(cs, s[1..])
  }

  /** `w` is the first word of `s`: a prefix without whitespace that ends where `s` does or at whitespace. */
  predicate FirstRun(cs: Charset, s: string, w: string) {
    && StartsWith(s, w)
    && (forall k :: 0 <= k < |w| ==> !IsSpace(cs, w[k]))
    && (|w| == |s| || IsSpace(cs, s[|w|]))
  }

  /** A string has exactly one first word. */
  lemma FirstRunUnique(cs: Charset, s: string, v: string, w: string)
    requires FirstRun(cs, s, v) && FirstRun(cs, s, w)
    ensures v == w
  {
  }

  /** `s.split(/\s+/)`: the pieces between maximal runs of JavaScript whitespace. */
  function SplitOnSpaceRuns(s: string): (r: seq<string>)
    ensures |r| >= 1
    ensures r[0] == s[..IndexOfSpace(JsWhitespace, s)]
    ensures FirstRun(JsWhitespace, s, r[0])
    ensures |r[0]| < |s| ==> |r| >= 2 && FirstRun(JsWhitespace, TrimStart(JsWhitespace, s[|r[0]|..]), r[1])
    decreases |s|
  {
    var i := IndexOfSpace(JsWhitespace, s);
    if i == |s| then
      assert s[..i] == s;
      [s]
    else
      var rest := TrimStart(JsWhitespace, s[i..]);
      [s[..i]] + SplitOnSpaceRuns(rest)
  }
}
