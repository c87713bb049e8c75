/**
 * The decision rules of the extension's background worker: when to retry a
 * message to the tab's content script, which folder a new note goes to, and
 * what title and HTML the note request carries. Chrome's messaging, storage,
 * script injection and timers are left outside; the tab's replies come from an
 * oracle indexed by the attempt number.
 */
module Background {
  import opened Common
  import opened Text
  import opened Markdown
  import opened MarkdownRender
  import opened ErrorUtils
  import Content

  // ---------------------------------------------------------------------
  // Messaging the tab

  /** The outcome of one `tabs.sendMessage`: the content script's reply, or Chrome's error text. */
  datatype SendResult = Delivered(response: Content.Response) | SendFailed(error: string)

  /** `isNoReceiverError`: the content script is not (yet) listening in the tab. */
  predicate IsNoReceiverError(message: string) {
    Contains(message, NoReceiverText) || Contains(message, PortClosedText)
  }

  /** The retry trigger and the advice trigger agree, whether or not the message is trimmed first. */
  lemma NoReceiverAgrees(message: string)
    ensures IsNoReceiverError(message) <==> LooksLikeNoReceiver(Trim(JsWhitespace, message))
  {
    MarkersSurviveTrim(message);
  }

  /** The first send, one more after injecting the content script, and up to four retries. */
  const MaxSends: nat := 6

  /**
   * The extraction as a sequence of attempts from attempt `k` on: the first
   * reply wins; a failure leads to another attempt only while it is a
   * no-receiver error and attempts remain; the last failure is humanized.
   * `send(mode, k)` is what attempt `k` of the extract message with that mode gets.
   */
  function Attempts(tabUrl: Option<string>, mode: string, send: (string, nat) -> SendResult, k: nat): (Content.Response, nat)
    requires k < MaxSends
    decreases MaxSends - k
  {
    match send(mode, k)
    case Delivered(response) => (response, k + 1)
    case SendFailed(e) =>
      if IsNoReceiverError(e) && k + 1 < MaxSends then Attempts(tabUrl, mode, send, k + 1)
      else (Content.Failed(Humanized(e, tabUrl)), k + 1)
  }

  /** What a run of attempts from `k` that ended after attempt `n - 1` with result `r` looked like. */
  predicate RetryTrace(tabUrl: Option<string>, mode: string, send: (string, nat) -> SendResult, k: nat, r: Content.Response, n: nat)
  {
    && k < n <= MaxSends
    && (forall j :: k <= j < n - 1 ==> send(mode, j).SendFailed? && IsNoReceiverError(send(mode, j).error))
    && (send(mode, n - 1).Delivered? ==> r == send(mode, n - 1).response)
    && (send(mode, n - 1).SendFailed? ==>
          && r == Content.Failed(Humanized(send(mode, n - 1).error, tabUrl))
          && (n == MaxSends || !IsNoReceiverError(send(mode, n - 1).error)))
  }

  lemma {:induction false} AttemptsTrace(tabUrl: Option<string>, mode: string, send: (string, nat) -> SendResult, k: nat)
    requires k < MaxSends
    ensures RetryTrace(tabUrl, mode, send, k, Attempts(tabUrl, mode, send, k).0, Attempts(tabUrl, mode, send, k).1)
    decreases MaxSends - k
  {
    if send(mode, k).SendFailed? && IsNoReceiverError(send(mode, k).error) && k + 1 < MaxSends {
      AttemptsTrace(tabUrl, mode, send, k + 1);
    }
  }

  /**
   * The retry policy of `extractFromTab`: at most six sends; every send but the
   * last failed with a no-receiver error; the result is the last send's reply,
   * or its error humanized for the tab's URL, and a humanized failure means the
   * retries ran out or the error was of another kind.
   */
  lemma RetryPolicy(tabUrl: Option<string>, mode: string, send: (string, nat) -> SendResult)
    ensures RetryTrace(tabUrl, mode, send, 0, Attempts(tabUrl, mode, send, 0).0, Attempts(tabUrl, mode, send, 0).1)
  {
    AttemptsTrace(tabUrl, mode, send, 0);
  }

  /** The first reply the tab gives, at whatever attempt, is the result. */
  lemma FirstReplyWins(tabUrl: Option<string>, mode: string, send: (string, nat) -> SendResult, j: nat)
    requires j < MaxSends && send(mode, j).Delivered?
    requires forall i :: 0 <= i < j ==> send(mode, i).SendFailed? && IsNoReceiverError(send(mode, i).error)
    ensures Attempts(tabUrl, mode, send, 0) == (send(mode, j).response, j + 1)
  {
  }

  /** An error other than a missing receiver ends the extraction at once: no injection, no retry. */
  lemma OtherErrorsAreFinal(tabUrl: Option<string>, mode: string, send: (string, nat) -> SendResult)
    requires send(mode, 0).SendFailed? && !IsNoReceiverError(send(mode, 0).error)
    ensures Attempts(tabUrl, mode, send, 0) == (Content.Failed(Humanized(send(mode, 0).error, tabUrl)), 1)
  {
  }

  /** When the content script never answers, the user gets one of the three pieces of advice. */
  lemma NoReceiverEndsInAdvice(tabUrl: Option<string>, mode: string, send: (string, nat) -> SendResult)
    requires forall i :: 0 <= i < MaxSends ==> send(mode, i).SendFailed? && IsNoReceiverError(send(mode, i).error)
    ensures Attempts(tabUrl, mode, send, 0).1 == MaxSends
    ensures Attempts(tabUrl, mode, send, 0).0.Failed?
    ensures Attempts(tabUrl, mode, send, 0).0.error in {FileAdvice, RestrictedAdvice, ReloadAdvice}
  {
    RetryPolicy(tabUrl, mode, send);
    var n := Attempts(tabUrl, mode, send, 0).1;
    var e := send(mode, n - 1).error;
    assert send(mode, n - 1).SendFailed? && IsNoReceiverError(e);
    AdviceForTabErrors(e, tabUrl);
  }

  /**
   * `extractFromTab`: send; on a no-receiver error inject the content script
   * (its own failure is ignored) and send again; then retry up to four times
   * while the error is still a no-receiver error. `injected` says whether the
   * injection was attempted. The 150 ms pause between retries is left out.
   */
  method ExtractFromTab(tabUrl: Option<string>, mode: string, send: (string, nat) -> SendResult)
    returns (r: Content.Response, sends: nat, injected: bool)
    ensures (r, sends) == Attempts(tabUrl, mode, send, 0)
    ensures injected <==> send(mode, 0).SendFailed? && IsNoReceiverError(send(mode, 0).error)
  {
    var res := send(mode, 0);
    sends := 1;
    injected := false;
    if res.Delivered? {
      return res.response, sends, injected;
    }
    if IsNoReceiverError(res.error) {
      injected := true;
      res := send(mode, sends);
      sends := sends + 1;
      if res.Delivered? {
        return res.response, sends, injected;
      }
    }
    var i := 0;
    while i < 4
      invariant 0 <= i <= 4 && 1 <= sends <= 2 + i && sends <= MaxSends
      invariant sends >= 2 ==> sends == 2 + i
      invariant res == send(mode, sends - 1) && res.SendFailed?
      invariant sends == 1 ==> !IsNoReceiverError(res.error)
      invariant Attempts(tabUrl, mode, send, 0) == Attempts(tabUrl, mode, send, sends - 1)
      invariant injected <==> send(mode, 0).SendFailed? && IsNoReceiverError(send(mode, 0).error)
    {
      if !IsNoReceiverError(res.error) {
        break;
      }
      res := send(mode, sends);
      sends := sends + 1;
      if res.Delivered? {
        return res.response, sends, injected;
      }
      i := i + 1;
    }
    var message := HumanizeTabSendMessageError(res.error, tabUrl);
    r := Content.Failed(message);
  }

  // ---------------------------------------------------------------------
  // Choosing the folder

  /** An Apple Notes folder: the account and the folder's path in it. */
  datatype FolderRef = FolderRef(accountName: string, folderPath: string)

  /** The stored settings as `loadSettings` normalises them. */
  datatype Settings = Settings(askEveryTime: bool, defaultFolder: Option<FolderRef>)

  /** `maybePickFolderForCapture`, with the settings passed in. */
  function MaybePickFolderForCapture(settings: Settings, suggestedFolderPath: Option<string>): Option<FolderRef>
  {
    if settings.askEveryTime then None
    else if settings.defaultFolder.Some? then settings.defaultFolder
    else if suggestedFolderPath.Some? && suggestedFolderPath.value != "" then Some(FolderRef("", suggestedFolderPath.value))
    else None
  }

  /**
   * Asking every time picks nothing; otherwise a stored default wins over any
   * suggestion, a non-empty suggestion is used in the default account, and
   * without either nothing is picked. A picked folder comes from one of the two.
   */
  lemma FolderPicking(settings: Settings, suggestedFolderPath: Option<string>)
    ensures settings.askEveryTime ==> MaybePickFolderForCapture(settings, suggestedFolderPath).None?
    ensures !settings.askEveryTime && settings.defaultFolder.Some? ==>
      MaybePickFolderForCapture(settings, suggestedFolderPath) == settings.defaultFolder
    ensures MaybePickFolderForCapture(settings, suggestedFolderPath).None? <==>
      settings.askEveryTime || (settings.defaultFolder.None? && (suggestedFolderPath.None? || suggestedFolderPath.value == ""))
    ensures MaybePickFolderForCapture(settings, suggestedFolderPath).Some? ==>
      MaybePickFolderForCapture(settings, suggestedFolderPath) == settings.defaultFolder
      || (suggestedFolderPath.Some? && MaybePickFolderForCapture(settings, suggestedFolderPath) == Some(FolderRef("", suggestedFolderPath.value)))
  {
  }

  // ---------------------------------------------------------------------
  // Creating a note from the active tab

  /**
   * `tryRenderHtml`: markdown-it's render of the cleaned-up Markdown, or nothing
   * when it throws. The renderer is an oracle: a failure stands for the exception.
   */
  function TryRenderHtml(markdown: string, render: string -> Result<string, string>): Option<string>
  {
    match render(NormalizedMarkdown(markdown))
    case Success(html) => Some(html)
    case Failure(_) => None
  }

  /** The `createNote` request sent to the native host. */
  datatype NoteRequest = NoteRequest(
    folder: Option<FolderRef>, title: string, sourceUrl: string, markdown: string, images: seq<ImageRef>,
    html: Option<string>)

  /** What is stored as the last debug payload. */
  datatype DebugPayload = DebugPayload(capturedAt: string, mode: string, folder: Option<FolderRef>, extracted: Content.Response)

  /** The branch's result: the extraction error for the popup, or the note request and the payload stored. */
  datatype CreateOutcome = NotExtracted(error: string) | SendNote(request: NoteRequest, debug: DebugPayload)

  /** The mode asked of the content script: selection only when asked for by name. */
  function ExtractMode(requested: Option<string>): string {
    if requested == Some("selection") then "selection" else "reader"
  }

  /**
   * The `createNoteFromActiveTab` branch. `requestedFolder` is the message's
   * folder (`None` for null or undefined); `deriveTitle` stands for
   * `deriveTitleFromMarkdown`, which is not part of this model.
   */
  function CreateNote(
    requestedMode: Option<string>, requestedFolder: Option<FolderRef>, tabUrl: Option<string>,
    send: (string, nat) -> SendResult, settings: Settings, capturedAt: string,
    deriveTitle: (string, string) -> string, render: string -> Result<string, string>): CreateOutcome
  {
    var mode := ExtractMode(requestedMode);
    match Attempts(tabUrl, mode, send, 0).0
    case Failed(e) => NotExtracted(e)
    case Extracted(title, sourceUrl, markdown, images, suggested) =>
      var folder := if requestedFolder.Some? then requestedFolder else MaybePickFolderForCapture(settings, suggested);
      var html := TryRenderHtml(markdown, render);
      var derived := deriveTitle(markdown, title);
      SendNote(
        NoteRequest(folder, if derived != "" then derived else title, sourceUrl, markdown, images,
          if html.Some? && html.value != "" then html else None),
        DebugPayload(capturedAt, mode, folder, Attempts(tabUrl, mode, send, 0).0))
  }

  /** The branch as the worker runs it. */
  method CreateNoteFromActiveTab(
    requestedMode: Option<string>, requestedFolder: Option<FolderRef>, tabUrl: Option<string>,
    send: (string, nat) -> SendResult, settings: Settings, capturedAt: string,
    deriveTitle: (string, string) -> string, render: string -> Result<string, string>)
    returns (outcome: CreateOutcome)
    ensures outcome == CreateNote(requestedMode, requestedFolder, tabUrl, send, settings, capturedAt, deriveTitle, render)
  {
    var mode := if requestedMode == Some("selection") then "selection" else "reader";
    var extracted, _, _ := ExtractFromTab(tabUrl, mode, send);
    if extracted.Failed? {
      return NotExtracted(extracted.error);
    }
    var folder := requestedFolder;
    if folder.None? {
      folder := MaybePickFolderForCapture(settings, extracted.suggestedFolderPath);
    }
    var debug := DebugPayload(capturedAt, mode, folder, extracted);
    var html := TryRenderHtml(extracted.markdown, render);
    var title := deriveTitle(extracted.markdown, extracted.title);
    if title == "" {
      title := extracted.title;
    }
    var body := if html.Some? && html.value != "" then html else None;
    outcome := SendNote(NoteRequest(folder, title, extracted.sourceUrl, extracted.markdown, extracted.images, body), debug);
  }

  /**
   * A successful extraction becomes a note request that carries the capture
   * unchanged, goes to the requested folder when one was given (and otherwise
   * to the picked one), is titled by the derived title unless that is empty,
   * has HTML exactly when rendering succeeded with non-empty output, and is
   * recorded with the same folder and mode in the debug payload.
   */
  lemma NoteRequestRules(
    requestedMode: Option<string>, requestedFolder: Option<FolderRef>, tabUrl: Option<string>,
    send: (string, nat) -> SendResult, settings: Settings, capturedAt: string,
    deriveTitle: (string, string) -> string, render: string -> Result<string, string>)
    requires Attempts(tabUrl, ExtractMode(requestedMode), send, 0).0.Extracted?
    ensures var x := Attempts(tabUrl, ExtractMode(requestedMode), send, 0).0;
      var out := CreateNote(requestedMode, requestedFolder, tabUrl, send, settings, capturedAt, deriveTitle, render);
      && out.SendNote?
      && out.request.sourceUrl == x.sourceUrl && out.request.markdown == x.markdown && out.request.images == x.images
      && (requestedFolder.Some? ==> out.request.folder == requestedFolder)
      && (requestedFolder.None? ==> out.request.folder == MaybePickFolderForCapture(settings, x.suggestedFolderPath))
      && (deriveTitle(x.markdown, x.title) != "" ==> out.request.title == deriveTitle(x.markdown, x.title))
      && (deriveTitle(x.markdown, x.title) == "" ==> out.request.title == x.title)
      && (out.request.html.Some? <==>
            render(NormalizedMarkdown(x.markdown)).Success? && render(NormalizedMarkdown(x.markdown)).value != "")
      && (out.request.html.Some? ==> out.request.html.value == render(NormalizedMarkdown(x.markdown)).value)
      && out.debug == DebugPayload(capturedAt, ExtractMode(requestedMode), out.request.folder, x)
  {
  }

  /** A failed extraction sends nothing to the native host and reports the extraction's error. */
  lemma FailedExtractionStops(
    requestedMode: Option<string>, requestedFolder: Option<FolderRef>, tabUrl: Option<string>,
    send: (string, nat) -> SendResult, settings: Settings, capturedAt: string,
    deriveTitle: (string, string) -> string, render: string -> Result<string, string>)
    requires Attempts(tabUrl, ExtractMode(requestedMode), send, 0).0.Failed?
    ensures CreateNote(requestedMode, requestedFolder, tabUrl, send, settings, capturedAt, deriveTitle, render)
      == NotExtracted(Attempts(tabUrl, ExtractMode(requestedMode), send, 0).0.error)
  {
  }
}
