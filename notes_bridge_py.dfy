/**
 * The Python native host's Markdown-to-Notes serialiser: escaping, one `<div>`
 * per line, image-token replacement through a cache, and the MIME type and file
 * extension chosen for a cached image. Downloads, files, `mimetypes` and URL
 * parsing are oracles.
 */
module NotesBridgePy {
  import opened Common
  import opened Text
  import opened HtmlEscape

  /** `escape_html`: the five replacements, ampersand first. */
  function EscapeHtml(text: string): (r: string)
    ensures r == Escaped(text)
  {
    ReplaceChainIsEscaped(text);
    ReplaceChain(text)
  }

  // ---------------------------------------------------------------------
  // str.splitlines

  /** The line boundaries of `str.splitlines`. */
  const LineBreaks: seq<char> := [
    '\n', '\r', '\U{000B}', '\U{000C}', '\U{001C}', '\U{001D}', '\U{001E}', '\U{0085}', '\U{2028}', '\U{2029}'
  ]

  predicate BreakFree(line: string) {
    forall k :: 0 <= k < |line| ==> line[k] !in LineBreaks
  }

  /** Where the first line ends. */
  function FirstBreak(s: string): (i: nat)
    ensures i <= |s| && BreakFree(s[..i])
    ensures i < |s| ==> s[i] in LineBreaks
    decreases |s|
  {
    if s == [] then 0
    else if s[0] in LineBreaks then 0
    else
      var j := FirstBreak(s[1..]);
      assert s[..j + 1] == [s[0]] + s[1..][..j];
      1 + j
  }

  /** The first line ends at the first boundary character. */
  lemma {:induction false} FirstBreakAt(s: string, p: string)
    requires BreakFree(p) && |p| <= |s| && s[..|p|] == p && (|p| < |s| ==> s[|p|] in LineBreaks)
    ensures FirstBreak(s) == |p|
    decreases |p|
  {
    if p != [] {
      assert s[0] == p[0] && s[1..][..|p| - 1] == p[1..];
      FirstBreakAt(s[1..], p[1..]);
    }
  }

  /** `str.splitlines()`: `\r\n` is one boundary, and a final boundary starts no empty line. */
  function SplitLines(s: string): (lines: seq<string>)
    ensures forall k :: 0 <= k < |lines| ==> BreakFree(lines[k])
    decreases |s|
  {
    if s == [] then []
    else
      var i := FirstBreak(s);
      if i == |s| then
        assert s[..i] == s;
        [s]
      else
        var next := if s[i] == '\r' && i + 1 < |s| && s[i + 1] == '\n' then i + 2 else i + 1;
        [s[..i]] + SplitLines(s[next..])
  }

  /** Lines joined with `\n` split back into the same lines when the last is not empty. */
  lemma {:induction false} SplitLinesJoin(lines: seq<string>)
    requires |lines| >= 1 && lines[|lines| - 1] != []
    requires forall k :: 0 <= k < |lines| ==> BreakFree(lines[k])
    ensures SplitLines(Join(lines, "\n")) == lines
    decreases |lines|
  {
    var s := Join(lines, "\n");
    if |lines| == 1 {
      assert BreakFree(s[..|s|]);
    } else {
      var p := lines[0];
      JoinCons(p, lines[1..], "\n");
      assert [p] + lines[1..] == lines;
      assert s == p + "\n" + Join(lines[1..], "\n");
      assert s[..|p|] == p && s[|p|] == '\n';
      FirstBreakAt(s, p);
      assert s[|p| + 1..] == Join(lines[1..], "\n");
      SplitLinesJoin(lines[1..]);
    }
  }

  /** A line followed by `\r\n`: the pair is one boundary. */
  lemma SplitLinesCrLf(p: string, rest: string)
    requires p != [] && rest != [] && BreakFree(p) && BreakFree(rest)
    ensures SplitLines(p + "\r\n" + rest) == [p, rest]
  {
    var s := p + "\r\n" + rest;
    assert s[..|p|] == p && s[|p|] == '\r' && s[|p| + 1] == '\n';
    FirstBreakAt(s, p);
    assert s[|p| + 2..] == rest;
    assert rest[..|rest|] == rest;
    FirstBreakAt(rest, rest);
    assert SplitLines(rest) == [rest];
  }

  // ---------------------------------------------------------------------
  // One div per line

  const BlankDiv := "<div><br></div>"

  /** A line whose left-stripped text opens an `<img ` tag and whose right-stripped text closes it. */
  predicate IsImageLine(line: string) {
    StartsWith(TrimStart(PyWhitespace, line), "<img ") && EndsWith(TrimEnd(PyWhitespace, line), ">")
  }

  /** The indentation as non-breaking spaces: tabs to four spaces, then every space to `&nbsp;`. */
  function IndentHtml(ws: string): string {
    ReplaceAll(ReplaceAll(ws, "\t", "    "), " ", "&nbsp;")
  }

  /** What goes inside a line's `<div>`. */
  function DivBody(line: string): string {
    if Trim(PyWhitespace, line) == [] then "<br>"
    else if IsImageLine(line) then Trim(PyWhitespace, line)
    else
      var n := IndentLength(line);
      if n > 0 then IndentHtml(line[..n]) + EscapeHtml(line[n..]) else EscapeHtml(line)
  }

  function LineDiv(line: string): string {
    "<div>" + DivBody(line) + "</div>"
  }

  function Divs(lines: seq<string>): (divs: seq<string>)
    ensures |divs| == |lines| && forall k :: 0 <= k < |lines| ==> divs[k] == LineDiv(lines[k])
  {
    seq(|lines|, k requires 0 <= k < |lines| => LineDiv(lines[k]))
  }

  /** The serialised note body. */
  function NotesHtml(markdown: string): string {
    Join(Divs(SplitLines(markdown)), "\n")
  }

  /** One line's div, branch by branch as the loop body handles it. */
  method LineToDiv(line: string) returns (div: string)
    ensures div == LineDiv(line)
  {
    if Trim(PyWhitespace, line) == [] {
      return BlankDiv;
    }
    if StartsWith(TrimStart(PyWhitespace, line), "<img ") && EndsWith(TrimEnd(PyWhitespace, line), ">") {
      return "<div>" + Trim(PyWhitespace, line) + "</div>";
    }
    var n := IndentLength(line);
    if n > 0 {
      var ws := line[..n];
      var rest := line[n..];
      var wsHtml := ReplaceAll(ReplaceAll(ws, "\t", "    "), " ", "&nbsp;");
      div := "<div>" + (wsHtml + EscapeHtml(rest)) + "</div>";
    } else {
      div := "<div>" + EscapeHtml(line) + "</div>";
    }
  }

  /** The loop of `markdown_with_data_images_to_notes_html`: one div per line, in order. */
  method LinesToDivs(lines: seq<string>) returns (out: seq<string>)
    ensures out == Divs(lines)
  {
    out := [];
    for i := 0 to |lines|
      invariant |out| == i && forall k :: 0 <= k < i ==> out[k] == LineDiv(lines[k])
    {
      var div := LineToDiv(lines[i]);
      out := out + [div];
    }
  }

  /** `markdown_with_data_images_to_notes_html`. */
  method MarkdownWithDataImagesToNotesHtml(markdown: string) returns (html: string)
    ensures html == NotesHtml(markdown)
  {
    var lines := SplitLines(markdown);
    var out := LinesToDivs(lines);
    html := Join(out, "\n");
  }

  /** Every space of an expanded indentation becomes one `&nbsp;`. */
  lemma {:induction false} SpacesToNbsp(n: nat)
    ensures ReplaceAll(Repeat(" ", n), " ", "&nbsp;") == Nbsp(n)
  {
    if n > 0 {
      ReplaceCharAppend(" ", Repeat(" ", n - 1), ' ', "&nbsp;");
      ReplaceCharSingle(' ', ' ', "&nbsp;");
      SpacesToNbsp(n - 1);
    }
  }

  /** A space is one `&nbsp;`, a tab four. */
  lemma IndentIsNbsp(ws: string)
    requires AllIndent(ws)
    ensures IndentHtml(ws) == Nbsp(IndentWidth(ws))
  {
    TabsExpanded(ws);
    SpacesToNbsp(IndentWidth(ws));
  }

  /** A whitespace-only line (empty included) becomes an empty paragraph. */
  lemma BlankLineDiv(line: string)
    requires AllSpace(PyWhitespace, line)
    ensures LineDiv(line) == BlankDiv
  {
    TrimEnds(PyWhitespace, line);
  }

  /** An image tag line is written stripped of its surrounding whitespace and not escaped. */
  lemma ImageLineDiv(line: string)
    requires IsImageLine(line)
    ensures LineDiv(line) == "<div>" + Trim(PyWhitespace, line) + "</div>"
  {
    assert Trim(PyWhitespace, line) != [] by {
      var t := TrimStart(PyWhitespace, line);
      assert !IsSpace(PyWhitespace, line[|line| - |t|]);
      TrimEnds(PyWhitespace, line);
    }
    assert DivBody(line) == Trim(PyWhitespace, line);
  }

  /** The body of a text line: its indentation in non-breaking spaces, then the rest escaped. */
  lemma TextLineBody(line: string)
    requires !AllSpace(PyWhitespace, line) && !IsImageLine(line)
    ensures DivBody(line) == Nbsp(IndentWidth(line[..IndentLength(line)])) + Escaped(line[IndentLength(line)..])
  {
    TrimEnds(PyWhitespace, line);
    var n := IndentLength(line);
    IndentIsNbsp(line[..n]);
    if n == 0 {
      assert line[n..] == line;
      assert Nbsp(0) == [];
    }
  }

  /**
   * Any other line that is not an image tag keeps its text: its indentation
   * becomes non-breaking spaces, one per column, and the rest is escaped so
   * that decoding the entities gives it back and no tag can start inside it.
   */
  lemma TextLineDiv(line: string, n: nat)
    requires !AllSpace(PyWhitespace, line) && !IsImageLine(line) && n == IndentLength(line)
    ensures LineDiv(line) == "<div>" + (Nbsp(IndentWidth(line[..n])) + Escaped(line[n..])) + "</div>"
    ensures Unescape(Escaped(line[n..])) == line[n..]
    ensures '<' !in Escaped(line[n..]) && '>' !in Escaped(line[n..])
  {
    TextLineBody(line);
    UnescapeEscaped(line[n..]);
    EscapedHasNoMarkup(line[n..]);
  }

  lemma BreakFreeHasNoNewline(line: string)
    requires BreakFree(line)
    ensures '\n' !in line
  {
  }

  lemma IndentHtmlKeepsAbsent(ws: string, d: char)
    requires d !in ws && d != ' ' && d !in "&nbsp;"
    ensures d !in IndentHtml(ws)
  {
    ReplaceAllKeepsAbsent(ws, "\t", "    ", d);
    ReplaceAllKeepsAbsent(ReplaceAll(ws, "\t", "    "), " ", "&nbsp;", d);
  }

  lemma DivBodyKeepsAbsent(line: string, d: char)
    requires d !in line && d != ' ' && d !in "&nbsp;" && d !in "&amp;&lt;&gt;&quot;&#39;" && d !in "<br>"
    ensures d !in DivBody(line)
  {
    if Trim(PyWhitespace, line) != [] {
      if IsImageLine(line) {
        TrimKeepsAbsent(PyWhitespace, line, d);
      } else {
        var n := IndentLength(line);
        assert line == line[..n] + line[n..];
        IndentHtmlKeepsAbsent(line[..n], d);
        EscapedKeepsAbsent(line[n..], d);
        EscapedKeepsAbsent(line, d);
      }
    }
  }

  /** No div spans a line break when its line has none. */
  lemma DivIsOneLine(line: string)
    requires BreakFree(line)
    ensures '\n' !in LineDiv(line)
  {
    BreakFreeHasNoNewline(line);
    DivBodyKeepsAbsent(line, '\n');
  }

  /** The output has exactly one `\n`-separated div per line of the input. */
  lemma OneDivPerLine(markdown: string)
    requires SplitLines(markdown) != []
    ensures Split(NotesHtml(markdown), '\n') == Divs(SplitLines(markdown))
  {
    var lines := SplitLines(markdown);
    var divs := Divs(lines);
    forall k | 0 <= k < |divs|
      ensures '\n' !in divs[k]
    {
      DivIsOneLine(lines[k]);
    }
    SplitJoin(divs, '\n');
  }

  // ---------------------------------------------------------------------
  // Image tokens

  /** An image to fetch: its placeholder token, its URL and its alt text. */
  datatype ImageJob = ImageJob(token: string, url: string, alt: Option<string>)

  function PlaceholderText(token: string): string {
    "[[[IMG:" + token + "]]]"
  }

  /**
   * What the `k`-th image's placeholder becomes: an `<img>` of the cached file,
   * or the image's own URL when caching raised. `cache(k, url, referer)` is the
   * file URL `cache_image_to_file_url` gives on its `k`-th call, or the error.
   */
  function Replacement(k: nat, img: ImageJob, sourceUrl: Option<string>, cache: (nat, string, Option<string>) -> Result<string, string>): string
  {
    match cache(k, img.url, sourceUrl)
    case Success(fileUrl) => "<img src=\"" + fileUrl + "\">"
    case Failure(_) => img.url
  }

  /** The text after the first `n` images have been processed, in list order. */
  function TokensReplaced(markdown: string, images: seq<ImageJob>, n: nat, sourceUrl: Option<string>,
                          cache: (nat, string, Option<string>) -> Result<string, string>): string
    requires n <= |images|
  {
    if n == 0 then markdown
    else ReplaceAll(TokensReplaced(markdown, images, n - 1, sourceUrl, cache),
      PlaceholderText(images[n - 1].token), Replacement(n - 1, images[n - 1], sourceUrl, cache))
  }

  /** `replace_image_tokens`. */
  method ReplaceImageTokens(markdown: string, images: seq<ImageJob>, sourceUrl: Option<string>,
                            cache: (nat, string, Option<string>) -> Result<string, string>)
    returns (out: string)
    ensures out == TokensReplaced(markdown, images, |images|, sourceUrl, cache)
  {
    out := markdown;
    for i := 0 to |images|
      invariant out == TokensReplaced(markdown, images, i, sourceUrl, cache)
    {
      var img := images[i];
      var placeholder := "[[[IMG:" + img.token + "]]]";
      var replacement: string;
      match cache(i, img.url, sourceUrl) {
        case Success(fileUrl) =>
          replacement := "<img src=\"" + fileUrl + "\">";
        case Failure(_) =>
          replacement := img.url;
      }
      out := ReplaceAll(out, placeholder, replacement);
    }
  }

  /** Text with none of the placeholders passes through unchanged, whatever the cache does. */
  lemma {:induction false} NoPlaceholdersUnchanged(markdown: string, images: seq<ImageJob>, n: nat, sourceUrl: Option<string>,
                                                   cache: (nat, string, Option<string>) -> Result<string, string>)
    requires n <= |images|
    requires forall k :: 0 <= k < |images| ==> !Contains(markdown, PlaceholderText(images[k].token))
    ensures TokensReplaced(markdown, images, n, sourceUrl, cache) == markdown
  {
    if n > 0 {
      NoPlaceholdersUnchanged(markdown, images, n - 1, sourceUrl, cache);
      ReplaceAllAbsent(markdown, PlaceholderText(images[n - 1].token), Replacement(n - 1, images[n - 1], sourceUrl, cache));
    }
  }

  /** An image whose placeholder is present when its turn comes shows up as its `<img>` tag, or as its URL when caching failed. */
  lemma ImageShowsUp(markdown: string, images: seq<ImageJob>, k: nat, sourceUrl: Option<string>,
                     cache: (nat, string, Option<string>) -> Result<string, string>)
    requires k < |images|
    requires Contains(TokensReplaced(markdown, images, k, sourceUrl, cache), PlaceholderText(images[k].token))
    ensures cache(k, images[k].url, sourceUrl).Success? ==>
      Contains(TokensReplaced(markdown, images, k + 1, sourceUrl, cache), "<img src=\"" + cache(k, images[k].url, sourceUrl).value + "\">")
    ensures cache(k, images[k].url, sourceUrl).Failure? ==>
      Contains(TokensReplaced(markdown, images, k + 1, sourceUrl, cache), images[k].url)
  {
    ReplaceAllShowsReplacement(TokensReplaced(markdown, images, k, sourceUrl, cache),
      PlaceholderText(images[k].token), Replacement(k, images[k], sourceUrl, cache));
  }

  // ---------------------------------------------------------------------
  // MIME types and file extensions

  const OctetStream := "application/octet-stream"

  /** `_guess_mime_from_url`: by the lower-cased URL's ending. */
  function GuessMimeFromUrl(url: string): string {
    var lower := ToLower(url);
    if EndsWith(lower, ".png") then "image/png"
    else if EndsWith(lower, ".jpg") || EndsWith(lower, ".jpeg") then "image/jpeg"
    else if EndsWith(lower, ".gif") then "image/gif"
    else if EndsWith(lower, ".webp") then "image/webp"
    else OctetStream
  }

  /** The letter case of the URL does not matter. */
  lemma GuessMimeIgnoresCase(url: string)
    ensures GuessMimeFromUrl(ToLower(url)) == GuessMimeFromUrl(url)
  {
    ToLowerIdempotent(url);
  }

  /** The fixed MIME-to-extension table. */
  const MimeExtensions: map<string, string> := map[
    "image/png" := ".png", "image/jpeg" := ".jpg", "image/jpg" := ".jpg", "image/gif" := ".gif", "image/webp" := ".webp"
  ]

  /** `pathlib.PurePosixPath(path).name`: the last component, ignoring empty and `.` components. */
  function PathName(path: string): string {
    var parts := Filter(Split(path, '/'), p => p != "" && p != ".");
    if parts == [] then "" else parts[|parts| - 1]
  }

  /** The index of the last `c` in `s`, or -1 (`str.rfind`). */
  function LastIndexOf(s: string, c: char): (i: int)
    ensures -1 <= i < |s|
    ensures i >= 0 ==> s[i] == c
    ensures forall k :: i < k < |s| ==> s[k] != c
    decreases |s|
  {
    if s == [] then -1
    else if s[|s| - 1] == c then |s| - 1
    else LastIndexOf(s[..|s| - 1], c)
  }

  /** `PurePath.suffix`: from the last dot of the name, unless the dot is first or last. */
  function PathSuffix(path: string): (suffix: string)
    ensures suffix != [] ==> suffix[0] == '.' && |suffix| >= 2 && '.' !in suffix[1..] && '/' !in suffix
  {
    var name := PathName(path);
    var i := LastIndexOf(name, '.');
    if 0 < i < |name| - 1 then
      assert '/' !in name by {
        var parts := Filter(Split(path, '/'), p => p != "" && p != ".");
        if parts != [] {
          assert name == parts[|parts| - 1] && name in Split(path, '/');
        }
      }
      name[i..]
    else ""
  }

  /**
   * `_ext_from_mime_or_url`. `guessExtension` stands for
   * `mimetypes.guess_extension` and `urlPath` for `urlparse(url).path`, with a
   * failure for the exception the code catches.
   */
  function ExtFromMimeOrUrl(mime: string, url: string, guessExtension: string -> Option<string>,
                            urlPath: string -> Result<string, string>): string
  {
    var m := ToLower(mime);
    if m in MimeExtensions then MimeExtensions[m]
    else
      var guessed := if m != "" then guessExtension(m) else None;
      if guessed.Some? && guessed.value != "" then guessed.value
      else
        match urlPath(url)
        case Failure(_) => ".bin"
        case Success(path) =>
          var suffix := PathSuffix(path);
          if suffix != "" && |suffix| <= 6 then suffix else ".bin"
  }

  /**
   * The order of the fallbacks: a known image type always gets its fixed
   * extension; otherwise a guess from the MIME type wins; otherwise the URL's
   * suffix when it is at most six characters counting the dot; otherwise `.bin`.
   * The result is never empty.
   */
  lemma ExtensionFallbacks(mime: string, url: string, guessExtension: string -> Option<string>,
                           urlPath: string -> Result<string, string>)
    ensures var r := ExtFromMimeOrUrl(mime, url, guessExtension, urlPath);
      var m := ToLower(mime);
      var guessed := m != "" && guessExtension(m).Some? && guessExtension(m).value != "";
      var suffix := if urlPath(url).Success? then PathSuffix(urlPath(url).value) else "";
      && r != ""
      && (m in MimeExtensions ==> r == MimeExtensions[m])
      && (m !in MimeExtensions && guessed ==> r == guessExtension(m).value)
      && (m !in MimeExtensions && !guessed && 1 <= |suffix| <= 6 ==> r == suffix && r[0] == '.')
      && (m !in MimeExtensions && !guessed && (suffix == "" || |suffix| > 6) ==> r == ".bin")
  {
  }

  /** The lower-cased file name ends with the extension it was given. */
  lemma LowerEndsWithExtension(name: string, ext: string)
    requires forall k :: 0 <= k < |ext| ==> !('A' <= ext[k] <= 'Z')
    ensures EndsWith(ToLower(name + ext), ext)
  {
    var file := name + ext;
    ToLowerAt(file);
    var lower := ToLower(file);
    forall k | 0 <= k < |ext|
      ensures lower[|file| - |ext| + k] == ext[k]
    {
      assert file[|name| + k] == ext[k];
    }
    assert lower[|file| - |ext|..] == ext;
  }

  /** A text with ending `a` does not have ending `b` when `a` is the shorter and not an ending of `b`. */
  lemma OtherEnding(s: string, a: string, b: string)
    requires EndsWith(s, a) && |a| <= |b| && !EndsWith(b, a)
    ensures !EndsWith(s, b)
  {
    if EndsWith(s, b) {
      EndingsNest(s, a, b);
    }
  }

  lemma GuessPng(name: string)
    ensures GuessMimeFromUrl(name + ".png") == "image/png"
  {
    LowerEndsWithExtension(name, ".png");
  }

  lemma GuessJpg(name: string)
    ensures GuessMimeFromUrl(name + ".jpg") == "image/jpeg"
  {
    LowerEndsWithExtension(name, ".jpg");
    OtherEnding(ToLower(name + ".jpg"), ".jpg", ".png");
  }

  lemma GuessGif(name: string)
    ensures GuessMimeFromUrl(name + ".gif") == "image/gif"
  {
    var lower := ToLower(name + ".gif");
    LowerEndsWithExtension(name, ".gif");
    OtherEnding(lower, ".gif", ".png");
    OtherEnding(lower, ".gif", ".jpg");
    OtherEnding(lower, ".gif", ".jpeg");
  }

  lemma GuessWebp(name: string)
    ensures GuessMimeFromUrl(name + ".webp") == "image/webp"
  {
    var lower := ToLower(name + ".webp");
    LowerEndsWithExtension(name, ".webp");
    EndsWithTrans("webp", ".webp", lower);
    OtherEnding(lower, "webp", ".png");
    OtherEnding(lower, "webp", ".jpg");
    OtherEnding(lower, "webp", ".gif");
    OtherEnding(lower, ".webp", ".jpeg");
  }

  /**
   * A known image type, in any letter case, survives the trip to a file name
   * and back: the extension chosen for it is guessed as the same type
   * (`image/jpg` as its standard name `image/jpeg`).
   */
  lemma MimeExtensionRoundTrip(mime: string, name: string, url: string, guessExtension: string -> Option<string>,
                               urlPath: string -> Result<string, string>)
    requires ToLower(mime) in MimeExtensions
    ensures GuessMimeFromUrl(name + ExtFromMimeOrUrl(mime, url, guessExtension, urlPath))
      == if ToLower(mime) == "image/jpg" then "image/jpeg" else ToLower(mime)
  {
    var m := ToLower(mime);
    if m == "image/png" {
      GuessPng(name);
    } else if m == "image/jpeg" || m == "image/jpg" {
      GuessJpg(name);
    } else if m == "image/gif" {
      GuessGif(name);
    } else {
      GuessWebp(name);
    }
  }
}
