/**
 * The macOS (Swift) native host's Markdown-to-Notes serialiser. It follows the
 * Python host closely but splits lines with Foundation's newline set, trims
 * with Swift's whitespace sets and limits the fallback extension differently;
 * the lemmas at the end say where the two hosts agree and where they differ.
 */
module NotesBridgeSwift {
  import opened Common
  import opened Text
  import opened HtmlEscape
  import NotesBridgePy

  /** `escapeHtml`: the five replacements, ampersand first, one reassignment each. */
  method EscapeHtml(text: string) returns (out: string)
    ensures out == Escaped(text)
  {
    out := text;
    out := ReplaceAll(out, "&", "&amp;");
    out := ReplaceAll(out, "<", "&lt;");
    out := ReplaceAll(out, ">", "&gt;");
    out := ReplaceAll(out, "\"", "&quot;");
    out := ReplaceAll(out, "'", "&#39;");
    ReplaceChainIsEscaped(text);
  }

  // ---------------------------------------------------------------------
  // components(separatedBy: .newlines)

  predicate NewlineFree(line: string) {
    forall k :: 0 <= k < |line| ==> line[k] !in SwiftNewlines
  }

  /** Where the first component ends. */
  function FirstNewline(s: string): (i: nat)
    ensures i <= |s| && NewlineFree(s[..i])
    ensures i < |s| ==> s[i] in SwiftNewlines
    decreases |s|
  {
    if s == [] then 0
    else if s[0] in SwiftNewlines then 0
    else
      var j := FirstNewline(s[1..]);
      assert s[..j + 1] == [s[0]] + s[1..][..j];
      1 + j
  }

  /**
   * `components(separatedBy: .newlines)`: every newline character separates,
   * so `\r\n` leaves an empty component between its two halves, and the
   * components around a separator are kept even when empty.
   */
  function SplitNewlines(s: string): (lines: seq<string>)
    ensures |lines| >= 1
    ensures forall k :: 0 <= k < |lines| ==> NewlineFree(lines[k])
    decreases |s|
  {
    var i := FirstNewline(s);
    if i == |s| then
      assert s[..i] == s;
      [s]
    else [s[..i]] + SplitNewlines(s[i + 1..])
  }

  /** Newline-free lines joined with `\n` split back into the same lines, empty ones included. */
  lemma {:induction false} SplitNewlinesJoin(lines: seq<string>)
    requires |lines| >= 1
    requires forall k :: 0 <= k < |lines| ==> NewlineFree(lines[k])
    ensures SplitNewlines(Join(lines, "\n")) == lines
    decreases |lines|
  {
    var s := Join(lines, "\n");
    if |lines| == 1 {
      assert s[..|s|] == s;
    } else {
      var p := lines[0];
      JoinCons(p, lines[1..], "\n");
      assert [p] + lines[1..] == lines;
      assert s == p + "\n" + Join(lines[1..], "\n");
      assert s[..|p|] == p && s[|p|] == '\n';
      assert FirstNewline(s) == |p| by {
        assert forall k :: 0 <= k < |p| ==> s[k] == p[k];
      }
      assert s[|p| + 1..] == Join(lines[1..], "\n");
      SplitNewlinesJoin(lines[1..]);
    }
  }

  // ---------------------------------------------------------------------
  // One div per line

  /** Each space of the expanded indentation as `&nbsp;`, anything else kept. */
  function SpacesAsNbsp(s: string): string
    decreases |s|
  {
    if s == [] then [] else (if s[0] == ' ' then "&nbsp;" else [s[0]]) + SpacesAsNbsp(s[1..])
  }

  /** What goes inside a line's `<div>`. */
  function DivBody(line: string): string {
    var trimmed := Trim(SwiftWhitespaces, line);
    if Trim(SwiftWhitespacesAndNewlines, line) == [] then "<br>"
    else if StartsWith(trimmed, "<img ") && EndsWith(trimmed, ">") then trimmed
    else
      var n := IndentLength(line);
      SpacesAsNbsp(ReplaceAll(line[..n], "\t", "    ")) + Escaped(line[n..])
  }

  function LineDiv(line: string): string {
    "<div>" + DivBody(line) + "</div>"
  }

  function Divs(lines: seq<string>): (divs: seq<string>)
    ensures |divs| == |lines| && forall k :: 0 <= k < |lines| ==> divs[k] == LineDiv(lines[k])
  {
    seq(|lines|, k requires 0 <= k < |lines| => LineDiv(lines[k]))
  }

  /** The serialised note body. */
  function NotesHtml(markdown: string): string {
    Join(Divs(SplitNewlines(markdown)), "\n")
  }

  /** The loop body of `markdownToNotesHtml` for one line. */
  method LineToDiv(line: string) returns (div: string)
    ensures div == LineDiv(line)
  {
    if Trim(SwiftWhitespacesAndNewlines, line) == [] {
      return "<div><br></div>";
    }
    var trimmed := Trim(SwiftWhitespaces, line);
    if StartsWith(trimmed, "<img ") && EndsWith(trimmed, ">") {
      return "<div>" + trimmed + "</div>";
    }
    var prefixHtml := "";
    var rest := line;
    var n := IndentLength(line);
    if n > 0 {
      var ws := line[..n];
      rest := line[n..];
      var expanded := ReplaceAll(ws, "\t", "    ");
      prefixHtml := SpacesAsNbsp(expanded);
    } else {
      assert line[n..] == line && line[..n] == [];
    }
    var escaped := EscapeHtml(rest);
    div := "<div>" + (prefixHtml + escaped) + "</div>";
  }

  /** The loop of `markdownToNotesHtml`: one div per component, in order. */
  method LinesToDivs(lines: seq<string>) returns (out: seq<string>)
    ensures out == Divs(lines)
  {
    out := [];
    for i := 0 to |lines|
      invariant |out| == i && forall k :: 0 <= k < i ==> out[k] == LineDiv(lines[k])
    {
      var div := LineToDiv(lines[i]);
      out := out + [div];
    }
  }

  /** `markdownToNotesHtml`. */
  method MarkdownToNotesHtml(markdown: string) returns (html: string)
    ensures html == NotesHtml(markdown)
  {
    var lines := SplitNewlines(markdown);
    var out := LinesToDivs(lines);
    html := Join(out, "\n");
  }

  lemma {:induction false} SpacesAsNbspRepeat(n: nat)
    ensures SpacesAsNbsp(Repeat(" ", n)) == Nbsp(n)
  {
    if n > 0 {
      SpacesAsNbspRepeat(n - 1);
    }
  }

  /** A space is one `&nbsp;`, a tab four. */
  lemma IndentIsNbsp(ws: string)
    requires AllIndent(ws)
    ensures SpacesAsNbsp(ReplaceAll(ws, "\t", "    ")) == Nbsp(IndentWidth(ws))
  {
    TabsExpanded(ws);
    SpacesAsNbspRepeat(IndentWidth(ws));
  }

  /** A component with only whitespace (or nothing) becomes an empty paragraph. */
  lemma BlankLineDiv(line: string)
    requires AllSpace(SwiftWhitespacesAndNewlines, line)
    ensures LineDiv(line) == "<div><br></div>"
  {
    TrimEnds(SwiftWhitespacesAndNewlines, line);
  }

  /** A line that is an image tag once its spaces are trimmed is written trimmed and not escaped. */
  lemma ImageLineDiv(line: string)
    requires StartsWith(Trim(SwiftWhitespaces, line), "<img ") && EndsWith(Trim(SwiftWhitespaces, line), ">")
    ensures LineDiv(line) == "<div>" + Trim(SwiftWhitespaces, line) + "</div>"
  {
    assert Trim(SwiftWhitespacesAndNewlines, line) != [] by {
      assert Trim(SwiftWhitespaces, line)[0] == '<';
      if '<' !in line {
        TrimKeepsAbsent(SwiftWhitespaces, line, '<');
      }
      var i :| 0 <= i < |line| && line[i] == '<';
      LetterNotSwiftSpace('<');
      TrimEnds(SwiftWhitespacesAndNewlines, line);
    }
    assert DivBody(line) == Trim(SwiftWhitespaces, line);
  }

  /** Every other non-image line keeps its text: indentation as non-breaking spaces, the rest escaped. */
  lemma TextLineBody(line: string)
    requires !AllSpace(SwiftWhitespacesAndNewlines, line)
    requires !(StartsWith(Trim(SwiftWhitespaces, line), "<img ") && EndsWith(Trim(SwiftWhitespaces, line), ">"))
    ensures DivBody(line) == Nbsp(IndentWidth(line[..IndentLength(line)])) + Escaped(line[IndentLength(line)..])
  {
    TrimEnds(SwiftWhitespacesAndNewlines, line);
    IndentIsNbsp(line[..IndentLength(line)]);
  }

  lemma {:induction false} SpacesAsNbspKeepsAbsent(s: string, d: char)
    requires d !in s && d !in "&nbsp;"
    ensures d !in SpacesAsNbsp(s)
    decreases |s|
  {
    if s != [] {
      assert d !in s[1..];
      SpacesAsNbspKeepsAbsent(s[1..], d);
    }
  }

  lemma DivBodyKeepsAbsent(line: string, d: char)
    requires d !in line && d != ' ' && d !in "&nbsp;" && d !in "&amp;&lt;&gt;&quot;&#39;" && d !in "<br>"
    ensures d !in DivBody(line)
  {
    var trimmed := Trim(SwiftWhitespaces, line);
    TrimKeepsAbsent(SwiftWhitespaces, line, d);
    if Trim(SwiftWhitespacesAndNewlines, line) != [] && !(StartsWith(trimmed, "<img ") && EndsWith(trimmed, ">")) {
      var n := IndentLength(line);
      assert line == line[..n] + line[n..];
      ReplaceAllKeepsAbsent(line[..n], "\t", "    ", d);
      SpacesAsNbspKeepsAbsent(ReplaceAll(line[..n], "\t", "    "), d);
      EscapedKeepsAbsent(line[n..], d);
    }
  }

  /** No div spans a line break when its component has none. */
  lemma DivIsOneLine(line: string)
    requires NewlineFree(line)
    ensures '\n' !in LineDiv(line)
  {
    assert '\n' in SwiftNewlines;
    DivBodyKeepsAbsent(line, '\n');
  }

  /** The output has exactly one `\n`-separated div per component of the input. */
  lemma OneDivPerLine(markdown: string)
    ensures Split(NotesHtml(markdown), '\n') == Divs(SplitNewlines(markdown))
  {
    var lines := SplitNewlines(markdown);
    var divs := Divs(lines);
    forall k | 0 <= k < |divs|
      ensures '\n' !in divs[k]
    {
      DivIsOneLine(lines[k]);
    }
    SplitJoin(divs, '\n');
  }

  // ---------------------------------------------------------------------
  // Where the two hosts differ and agree

  /** A newline-free text is one component. */
  lemma SplitNewlinesFree(p: string)
    requires NewlineFree(p)
    ensures SplitNewlines(p) == [p]
  {
    assert p[..|p|] == p;
  }

  /** The first newline character ends the first component. */
  lemma SplitNewlinesAt(p: string, c: char, rest: string)
    requires NewlineFree(p) && c in SwiftNewlines
    ensures SplitNewlines(p + [c] + rest) == [p] + SplitNewlines(rest)
  {
    var s := p + [c] + rest;
    assert forall k :: 0 <= k < |p| ==> s[k] == p[k];
    assert s[|p|] == c;
    assert FirstNewline(s) == |p|;
    assert s[..|p|] == p && s[|p| + 1..] == rest;
  }

  /** With Windows line endings, this host sees an empty line between every two lines; the Python host does not. */
  lemma CrLfSplitsDiffer(a: string, b: string)
    requires a != [] && b != [] && NotesBridgePy.BreakFree(a) && NotesBridgePy.BreakFree(b)
    ensures SplitNewlines(a + "\r\n" + b) == [a, "", b]
    ensures NotesBridgePy.SplitLines(a + "\r\n" + b) == [a, b]
  {
    NewlineFreeOfBreakFree(a);
    NewlineFreeOfBreakFree(b);
    assert a + "\r\n" + b == a + ['\r'] + ("" + ['\n'] + b);
    SplitNewlinesAt(a, '\r', "" + ['\n'] + b);
    SplitNewlinesAt("", '\n', b);
    SplitNewlinesFree(b);
    NotesBridgePy.SplitLinesCrLf(a, b);
  }

  lemma NewlineFreeOfBreakFree(p: string)
    requires NotesBridgePy.BreakFree(p)
    ensures NewlineFree(p)
  {
    forall k | 0 <= k < |p|
      ensures p[k] !in SwiftNewlines
    {
      assert p[k] !in NotesBridgePy.LineBreaks;
    }
  }

  /** On a text line that both hosts treat as text, they write the same div. */
  lemma HostsAgreeOnTextLines(line: string)
    requires !AllSpace(SwiftWhitespacesAndNewlines, line) && !AllSpace(PyWhitespace, line)
    requires !(StartsWith(Trim(SwiftWhitespaces, line), "<img ") && EndsWith(Trim(SwiftWhitespaces, line), ">"))
    requires !NotesBridgePy.IsImageLine(line)
    ensures LineDiv(line) == NotesBridgePy.LineDiv(line)
  {
    TextLineBody(line);
    NotesBridgePy.TextLineBody(line);
  }

  // ---------------------------------------------------------------------
  // MIME types and file extensions

  /** `guessMime(from:)`, by the URL's path extension in lower case. */
  function GuessMime(pathExtension: string): string {
    var e := ToLower(pathExtension);
    if e == "png" then "image/png"
    else if e == "jpg" || e == "jpeg" then "image/jpeg"
    else if e == "gif" then "image/gif"
    else if e == "webp" then "image/webp"
    else NotesBridgePy.OctetStream
  }

  /**
   * `fileExtension(for:fallbackUrl:)`. `fallbackExtension` is the fallback
   * URL's path extension, or `None` when the URL string does not parse.
   */
  function FileExtension(mime: string, fallbackExtension: Option<string>): string {
    var m := ToLower(mime);
    if m == "image/png" then ".png"
    else if m == "image/jpeg" || m == "image/jpg" then ".jpg"
    else if m == "image/gif" then ".gif"
    else if m == "image/webp" then ".webp"
    else if fallbackExtension.Some? && fallbackExtension.value != "" && |fallbackExtension.value| <= 6 then
      "." + fallbackExtension.value
    else ".bin"
  }

  /**
   * The fallbacks: a known image type gets the same extension as on the Python
   * host; any other type takes the URL's extension when it has one to six
   * characters, not counting the dot (the Python host counts the dot), and
   * `.bin` otherwise.
   */
  lemma ExtensionFallbacks(mime: string, fallbackExtension: Option<string>, url: string,
                           guessExtension: string -> Option<string>, urlPath: string -> Result<string, string>)
    ensures ToLower(mime) in NotesBridgePy.MimeExtensions ==>
      FileExtension(mime, fallbackExtension) == NotesBridgePy.ExtFromMimeOrUrl(mime, url, guessExtension, urlPath)
    ensures ToLower(mime) !in NotesBridgePy.MimeExtensions ==>
      FileExtension(mime, fallbackExtension) ==
        if fallbackExtension.Some? && 1 <= |fallbackExtension.value| <= 6 then "." + fallbackExtension.value else ".bin"
  {
  }

  /** A cached image's extension, read back from its file name, gives its type again. */
  lemma MimeExtensionRoundTrip(mime: string, fallbackExtension: Option<string>)
    requires ToLower(mime) in NotesBridgePy.MimeExtensions
    ensures var ext := FileExtension(mime, fallbackExtension);
      |ext| >= 2 && GuessMime(ext[1..]) == if ToLower(mime) == "image/jpg" then "image/jpeg" else ToLower(mime)
  {
    var ext := FileExtension(mime, fallbackExtension);
    assert ext[1..] in ["png", "jpg", "gif", "webp"];
    ToLowerNoCapitals(ext[1..]);
  }

  // ---------------------------------------------------------------------
  // Image tokens

  /** An entry of the `images` list: its `token` and `url` when they are strings. */
  datatype ImageEntry = ImageEntry(token: Option<string>, url: Option<string>)

  /** The text after the first `n` entries have been processed; an entry without a string token or URL is skipped. */
  function TokensReplaced(markdown: string, images: seq<ImageEntry>, n: nat, sourceUrl: Option<string>,
                          cache: (nat, string, Option<string>) -> Result<string, string>): string
    requires n <= |images|
  {
    if n == 0 then markdown
    else
      var before := TokensReplaced(markdown, images, n - 1, sourceUrl, cache);
      var img := images[n - 1];
      if img.token.None? || img.url.None? then before
      else
        var replacement := match cache(n - 1, img.url.value, sourceUrl)
          case Success(fileUrl) => "<img src=\"" + fileUrl + "\">"
          case Failure(_) => img.url.value;
        ReplaceAll(before, NotesBridgePy.PlaceholderText(img.token.value), replacement)
  }

  /** `replaceImageTokens`. `cache(k, url, referer)` is the file URL the `k`-th entry's download gives, or the error. */
  method ReplaceImageTokens(markdown: string, images: seq<ImageEntry>, sourceUrl: Option<string>,
                            cache: (nat, string, Option<string>) -> Result<string, string>)
    returns (out: string)
    ensures out == TokensReplaced(markdown, images, |images|, sourceUrl, cache)
  {
    out := markdown;
    for i := 0 to |images|
      invariant out == TokensReplaced(markdown, images, i, sourceUrl, cache)
    {
      if images[i].token.None? || images[i].url.None? {
        continue;
      }
      var token, url := images[i].token.value, images[i].url.value;
      var placeholder := "[[[IMG:" + token + "]]]";
      match cache(i, url, sourceUrl) {
        case Success(fileUrl) =>
          out := ReplaceAll(out, placeholder, "<img src=\"" + fileUrl + "\">");
        case Failure(_) =>
          out := ReplaceAll(out, placeholder, url);
      }
    }
  }

  /** When every entry has a token and a URL, both hosts replace the placeholders alike. */
  lemma {:induction false} HostsAgreeOnImages(markdown: string, images: seq<ImageEntry>, jobs: seq<NotesBridgePy.ImageJob>,
                                              n: nat, sourceUrl: Option<string>,
                                              cache: (nat, string, Option<string>) -> Result<string, string>)
    requires n <= |images| == |jobs|
    requires forall k :: 0 <= k < |images| ==>
      images[k].token.Some? && images[k].url.Some? && jobs[k].token == images[k].token.value && jobs[k].url == images[k].url.value
    ensures TokensReplaced(markdown, images, n, sourceUrl, cache) == NotesBridgePy.TokensReplaced(markdown, jobs, n, sourceUrl, cache)
  {
    if n > 0 {
      HostsAgreeOnImages(markdown, images, jobs, n - 1, sourceUrl, cache);
      var img, job := images[n - 1], jobs[n - 1];
      assert job.token == img.token.value && job.url == img.url.value;
    }
  }

  /** Entries without a string token or URL change nothing. */
  lemma {:induction false} MalformedEntriesIgnored(markdown: string, images: seq<ImageEntry>, n: nat, sourceUrl: Option<string>,
                                                   cache: (nat, string, Option<string>) -> Result<string, string>)
    requires n <= |images|
    requires forall k :: 0 <= k < |images| ==> images[k].token.None? || images[k].url.None?
    ensures TokensReplaced(markdown, images, n, sourceUrl, cache) == markdown
  {
    if n > 0 {
      MalformedEntriesIgnored(markdown, images, n - 1, sourceUrl, cache);
    }
  }
}
