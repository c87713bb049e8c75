/**
  * The content script's extraction handler (extension/src/content.ts): the
  * Markdown envelope, the Twitter-first dispatch, and the selection and
  * reader-mode fallbacks. The page, its selection and the result of
  * Readability are given as values; the capture time is a parameter.
  */
module Content {
  import opened Common
  import opened Text
  import opened Browser
  import opened Markdown
  import opened Twitter

  // ---------------------------------------------------------------------
  // The envelope

  /** The header lines of a capture, joined by newlines. */
  function EnvelopeHeader(title: string, sourceUrl: string, capturedAt: string): string
  {
    Join(["# " + title, "", sourceUrl, "Captured: " + capturedAt, "", "---", ""], "\n")
  }

  /** `buildMarkdownEnvelope`, with the ISO capture time as a parameter. */
  function BuildMarkdownEnvelope(title: string, sourceUrl: string, content: string, capturedAt: string): string
  {
    Trim(JsWhitespace, EnvelopeHeader(title, sourceUrl, capturedAt) + "\n" + Trim(JsWhitespace, content))
  }

  /** The header written out. */
  lemma HeaderText(title: string, sourceUrl: string, capturedAt: string)
    ensures EnvelopeHeader(title, sourceUrl, capturedAt) ==
      "# " + title + "\n\n" + sourceUrl + "\nCaptured: " + capturedAt + "\n\n---\n"
  {
    var c := "Captured: " + capturedAt;
    var rest := sourceUrl + "\n" + c + "\n\n---\n";
    assert EnvelopeHeader(title, sourceUrl, capturedAt) == "# " + title + "\n" + ("" + "\n" + rest) by {
      var l3 := [c, "", "---", ""];
      var l1 := [""] + ([sourceUrl] + l3);
      JoinBeforeRule(c);
      JoinCons(sourceUrl, l3, "\n");
      JoinCons("", [sourceUrl] + l3, "\n");
      JoinCons("# " + title, l1, "\n");
      assert ["# " + title, "", sourceUrl, c, "", "---", ""] == ["# " + title] + l1;
    }
    assert "\n\n" == "\n" + "\n" && "\nCaptured: " + capturedAt == "\n" + c;
  }

  /**
    * The envelope written out: the header, a blank line, the rule, a blank
    * line and the trimmed content; with blank content it ends at the rule.
    */
  lemma EnvelopeLayout(title: string, sourceUrl: string, content: string, capturedAt: string)
    ensures var head := "# " + title + "\n\n" + sourceUrl + "\nCaptured: " + capturedAt + "\n\n---";
      var body := Trim(JsWhitespace, content);
      BuildMarkdownEnvelope(title, sourceUrl, content, capturedAt) == if body == "" then head else head + "\n\n" + body
  {
    HeaderText(title, sourceUrl, capturedAt);
    var head := "# " + title + "\n\n" + sourceUrl + "\nCaptured: " + capturedAt + "\n\n---";
    var body := Trim(JsWhitespace, content);
    LetterNotJsSpace('#');
    LetterNotJsSpace('-');
    assert head[0] == '#' && head[|head| - 1] == '-';
    assert EnvelopeHeader(title, sourceUrl, capturedAt) + "\n" + body == head + "\n\n" + body;
    if body == "" {
      NewlineIsJsSpace();
      assert head + "\n\n" + body == head + "\n\n";
      TrimAppendSpace(JsWhitespace, head, "\n\n");
    } else {
      TrimEnds(JsWhitespace, content);
      var s := head + "\n\n" + body;
      assert s[0] == '#' && s[|s| - 1] == body[|body| - 1];
      TrimOfTrimmed(JsWhitespace, s);
    }
  }

  // ---------------------------------------------------------------------
  // Selection and reader mode

  /** The window's selection: how many ranges it has, and the first range's state and markup. */
  datatype Selection = Selection(rangeCount: nat, collapsed: bool, contentsHtml: string)

  /**
    * `getSelectionHtml`: no markup without a selection, without a range, for
    * a collapsed range, or when the copied markup is blank; otherwise the
    * markup trimmed.
    */
  function SelectionHtml(sel: Option<Selection>): (r: Option<string>)
    ensures r.None? <==>
      sel.None? || sel.value.rangeCount == 0 || sel.value.collapsed || Trim(JsWhitespace, sel.value.contentsHtml) == ""
    ensures r.Some? ==> r.value != "" && r.value == Trim(JsWhitespace, sel.value.contentsHtml)
  {
    if sel.None? || sel.value.rangeCount == 0 then None
    else if sel.value.collapsed then None
    else
      var html := Trim(JsWhitespace, sel.value.contentsHtml);
      if html == "" then None else Some(html)
  }

  /** What Readability returns: a missing `title` or `content` is the empty string. */
  datatype ReaderArticle = ReaderArticle(title: string, content: string)

  /** The title and markup reader mode works with. */
  datatype ReaderHtml = ReaderHtml(title: string, contentHtml: string)

  /**
    * `getReaderHtml`: `parsed` is what `reader.parse()` returned (`None` for
    * `null`) or the message it threw. No result when it threw or found no
    * content; the title falls back from the article's to the document's to
    * `Untitled`.
    */
  function GetReaderHtml(parsed: Result<Option<ReaderArticle>, string>, documentTitle: string): (r: Option<ReaderHtml>)
  {
    match parsed
    case Failure(_) => None
    case Success(None) => None
    case Success(Some(a)) =>
      if a.content == "" then None
      else
        var title := if a.title != "" then a.title else if documentTitle != "" then documentTitle else "Untitled";
        Some(ReaderHtml(title, a.content))
  }

  /**
    * Reader mode has content exactly when Readability returned an article
    * with content; its title is the first non-empty of the article's title,
    * the document's title and `Untitled`.
    */
  lemma ReaderHtmlMeaning(parsed: Result<Option<ReaderArticle>, string>, documentTitle: string)
    ensures GetReaderHtml(parsed, documentTitle).Some? <==>
      parsed.Success? && parsed.value.Some? && parsed.value.value.content != ""
    ensures GetReaderHtml(parsed, documentTitle).Some? ==>
      var a := parsed.value.value;
      var r := GetReaderHtml(parsed, documentTitle).value;
      r.contentHtml == a.content && r.title != "" && r.title == FirstNonEmpty([a.title, documentTitle, "Untitled"])
  {
    if GetReaderHtml(parsed, documentTitle).Some? {
      var a := parsed.value.value;
      var options := [a.title, documentTitle, "Untitled"];
      assert options[1..][1..] == ["Untitled"];
      assert FirstNonEmpty(options[1..][1..]) == "Untitled";
    }
  }

  // ---------------------------------------------------------------------
  // The handler

  /** An incoming message: its `type` and `mode`. */
  datatype Request = Request(kind: string, mode: string)

  /** What the handler sends back. */
  datatype Response =
    | Extracted(title: string, sourceUrl: string, markdown: string, images: seq<ImageRef>, suggestedFolderPath: Option<string>)
    | Failed(error: string)

  /** The tab the script runs in: the page, its selection and what Readability makes of it. */
  datatype Tab = Tab(page: Page, selection: Option<Selection>, readerParse: Result<Option<ReaderArticle>, string>)

  const UnknownRequestMessage := "Unknown request"
  const NoSelectionMessage := "没有检测到选中文本/内容。请先选中内容再点“仅选中内容”。"
  const ReaderFailedMessage := "阅读模式提取失败（该页面可能不适合 Reader）。请尝试“仅选中内容”。"

  /** A capture of markup from the page: converted, enveloped, its images passed on unchanged. */
  function GenericCapture(title: string, html: string, tab: Tab, htmlApi: HtmlApi, urlApi: UrlApi, capturedAt: string): Response
  {
    var conv := ConvertHtml(html, tab.page.href, htmlApi, urlApi);
    Extracted(title, tab.page.href, BuildMarkdownEnvelope(title, tab.page.href, conv.0, capturedAt), conv.1, None)
  }

  /** The response to one message. */
  function HandleSpec(msg: Option<Request>, tab: Tab, htmlApi: HtmlApi, urlApi: UrlApi, capturedAt: string): Response
  {
    if msg.None? || msg.value.kind != "extract" then Failed(UnknownRequestMessage)
    else
      match TwitterCapture(tab.page, htmlApi, urlApi)
      case Captured(c) =>
        Extracted(c.title, c.sourceUrl, BuildMarkdownEnvelope(c.title, c.sourceUrl, c.markdown, capturedAt), c.images,
          Some(c.suggestedFolderPath))
      case Threw(m) => Failed(m)
      case Refused(_) =>
        var title := if tab.page.title != "" then tab.page.title else "Untitled";
        if msg.value.mode == "selection" then
          match SelectionHtml(tab.selection)
          case None => Failed(NoSelectionMessage)
          case Some(html) => GenericCapture(title, html, tab, htmlApi, urlApi, capturedAt)
        else
          match GetReaderHtml(tab.readerParse, tab.page.title)
          case None => Failed(ReaderFailedMessage)
          case Some(reader) => GenericCapture(reader.title, reader.contentHtml, tab, htmlApi, urlApi, capturedAt)
  }

  /**
    * A Twitter capture wins whatever mode was asked for: it is enveloped,
    * keeps the Twitter images and suggests the `Twitter` folder; an
    * exception while capturing is reported as the failure.
    */
  lemma TwitterFirst(msg: Request, other: Request, tab: Tab, htmlApi: HtmlApi, urlApi: UrlApi, capturedAt: string)
    requires msg.kind == "extract" && other.kind == "extract"
    requires !TwitterCapture(tab.page, htmlApi, urlApi).Refused?
    ensures HandleSpec(Some(msg), tab, htmlApi, urlApi, capturedAt) == HandleSpec(Some(other), tab, htmlApi, urlApi, capturedAt)
    ensures var r := HandleSpec(Some(msg), tab, htmlApi, urlApi, capturedAt);
      match TwitterCapture(tab.page, htmlApi, urlApi)
      case Captured(c) =>
        r.Extracted? && r.sourceUrl == tab.page.href && r.images == c.images &&
        r.suggestedFolderPath == Some(TwitterFolder) &&
        r.markdown == BuildMarkdownEnvelope(c.title, c.sourceUrl, c.markdown, capturedAt)
      case Threw(m) => r == Failed(InvalidUrlMessage)
      case Refused(_) => false
  {
    CaptureOutcomes(tab.page, htmlApi, urlApi);
  }

  /**
    * Off Twitter, selection mode fails exactly when there is no usable
    * selection; otherwise it captures the selection under the document's
    * title (or `Untitled`) from the page's URL, with the converter's images.
    */
  lemma SelectionMode(msg: Request, tab: Tab, htmlApi: HtmlApi, urlApi: UrlApi, capturedAt: string)
    requires msg.kind == "extract" && msg.mode == "selection"
    requires TwitterCapture(tab.page, htmlApi, urlApi).Refused?
    ensures var r := HandleSpec(Some(msg), tab, htmlApi, urlApi, capturedAt);
      var sel := tab.selection;
      (r == Failed(NoSelectionMessage) <==>
        sel.None? || sel.value.rangeCount == 0 || sel.value.collapsed || Trim(JsWhitespace, sel.value.contentsHtml) == "") &&
      (r.Extracted? ==>
        var html := Trim(JsWhitespace, sel.value.contentsHtml);
        var conv := ConvertHtml(html, tab.page.href, htmlApi, urlApi);
        r.title == (if tab.page.title != "" then tab.page.title else "Untitled") &&
        r.sourceUrl == tab.page.href && r.images == conv.1 && r.suggestedFolderPath.None? &&
        r.markdown == BuildMarkdownEnvelope(r.title, tab.page.href, conv.0, capturedAt))
  {
  }

  /**
    * Off Twitter, any other mode is reader mode: it fails exactly when
    * Readability threw or found no content, and otherwise captures the
    * article under its fallback title.
    */
  lemma ReaderMode(msg: Request, tab: Tab, htmlApi: HtmlApi, urlApi: UrlApi, capturedAt: string)
    requires msg.kind == "extract" && msg.mode != "selection"
    requires TwitterCapture(tab.page, htmlApi, urlApi).Refused?
    ensures var r := HandleSpec(Some(msg), tab, htmlApi, urlApi, capturedAt);
      var parsed := tab.readerParse;
      (r == Failed(ReaderFailedMessage) <==>
        !(parsed.Success? && parsed.value.Some? && parsed.value.value.content != "")) &&
      (r.Extracted? ==>
        var a := parsed.value.value;
        var conv := ConvertHtml(a.content, tab.page.href, htmlApi, urlApi);
        r.title == FirstNonEmpty([a.title, tab.page.title, "Untitled"]) &&
        r.sourceUrl == tab.page.href && r.images == conv.1 && r.suggestedFolderPath.None? &&
        r.markdown == BuildMarkdownEnvelope(r.title, tab.page.href, conv.0, capturedAt))
  {
    ReaderHtmlMeaning(tab.readerParse, tab.page.title);
  }

  /**
    * The message handler: anything but an `extract` request is refused;
    * Twitter is tried first, then the selection or reader mode; an
    * exception from the Twitter capture becomes the failure message.
    */
  method HandleExtract(msg: Option<Request>, tab: Tab, htmlApi: HtmlApi, urlApi: UrlApi, capturedAt: string)
    returns (response: Response)
    ensures response == HandleSpec(msg, tab, htmlApi, urlApi, capturedAt)
  {
    if msg.None? || msg.value.kind != "extract" {
      return Failed(UnknownRequestMessage);
    }
    var twitterRes := ExtractTwitterMarkdown(tab.page, htmlApi, urlApi);
    if twitterRes.Threw? {
      return Failed(twitterRes.message);
    }
    if twitterRes.Captured? {
      var c := twitterRes.capture;
      var markdown := BuildMarkdownEnvelope(c.title, c.sourceUrl, c.markdown, capturedAt);
      return Extracted(c.title, c.sourceUrl, markdown, c.images, Some(c.suggestedFolderPath));
    }
    var baseUrl := tab.page.href;
    var title := if tab.page.title != "" then tab.page.title else "Untitled";
    var html: string;
    if msg.value.mode == "selection" {
      var selected := SelectionHtml(tab.selection);
      if selected.None? {
        return Failed(NoSelectionMessage);
      }
      html := selected.value;
    } else {
      var reader := GetReaderHtml(tab.readerParse, tab.page.title);
      if reader.None? {
        return Failed(ReaderFailedMessage);
      }
      title := reader.value.title;
      html := reader.value.contentHtml;
    }
    var contentMd, images := HtmlToMarkdownWithImageTokens(html, baseUrl, htmlApi, urlApi);
    var markdown := BuildMarkdownEnvelope(title, baseUrl, contentMd, capturedAt);
    return Extracted(title, baseUrl, markdown, images, None);
  }
}
