/**
 * The extension's error helpers: which tab URLs Chrome refuses to script, and how a
 * failed `tabs.sendMessage` is turned into a message a person can act on.
 */
module ErrorUtils {
  import opened Common
  import opened Text

  /** Some prefix in the list starts `url`. */
  predicate AnyPrefix(url: string, prefixes: seq<string>) {
    exists k :: 0 <= k < |prefixes| && StartsWith(url, prefixes[k])
  }

  /** `startsWithAny`: walks the prefixes and stops at the first that matches. */
  method StartsWithAny(url: string, prefixes: seq<string>) returns (r: bool)
    ensures r <==> AnyPrefix(url, prefixes)
  {
    for i := 0 to |prefixes|
      invariant forall k :: 0 <= k < i ==> !StartsWith(url, prefixes[k])
    {
      if StartsWith(url, prefixes[i]) {
        return true;
      }
    }
    return false;
  }

  /** Internal pages on which Chrome blocks extension scripts and messaging. */
  const RestrictedSchemes: seq<string> := [
    "chrome://", "chrome-extension://", "chrome-search://", "chrome-untrusted://",
    "devtools://", "edge://", "about:", "view-source:", "brave://"
  ]

  /** The Chrome Web Store, also closed to extension scripts. */
  const WebStorePrefixes: seq<string> := ["https://chrome.google.com/webstore", "https://chromewebstore.google.com/"]

  /** The URL as `isRestrictedUrl` compares it: trimmed, then lower-cased. */
  function Canonical(url: string): string {
    ToLower(Trim(JsWhitespace, url))
  }

  /** What `isRestrictedUrl` decides: a missing or empty URL is not restricted. */
  predicate RestrictedUrl(url: Option<string>) {
    url.Some? && url.value != ""
    && (AnyPrefix(Canonical(url.value), RestrictedSchemes) || AnyPrefix(Canonical(url.value), WebStorePrefixes))
  }

  /** `isRestrictedUrl`. */
  method IsRestrictedUrl(url: Option<string>) returns (r: bool)
    ensures r == RestrictedUrl(url)
  {
    if url.None? || url.value == "" {
      return false;
    }
    var u := ToLower(Trim(JsWhitespace, url.value));
    r := StartsWithAny(u, RestrictedSchemes);
    if r {
      return;
    }
    r := StartsWithAny(u, WebStorePrefixes);
  }

  /** A `file://` URL is never a restricted one, so the two kinds of advice never compete. */
  lemma FileUrlNotRestricted(url: string)
    requires StartsWith(Canonical(url), "file://")
    ensures !RestrictedUrl(Some(url))
  {
    var s := Canonical(url);
    assert s[0] == 'f';
    assert forall k :: 0 <= k < |RestrictedSchemes| ==> RestrictedSchemes[k][0] != 'f';
    assert forall k :: 0 <= k < |WebStorePrefixes| ==> WebStorePrefixes[k][0] != 'f';
  }

  /** Ordinary web pages are not restricted; among https pages only the Web Store is. */
  lemma WebPageNotRestricted(url: string)
    requires StartsWith(Canonical(url), "http://")
      || (StartsWith(Canonical(url), "https://")
          && !StartsWith(Canonical(url), WebStorePrefixes[0]) && !StartsWith(Canonical(url), WebStorePrefixes[1]))
    ensures !RestrictedUrl(Some(url))
  {
    var s := Canonical(url);
    assert s[0] == 'h' && s[4] == if StartsWith(s, "http://") then ':' else 's';
    assert forall k :: 0 <= k < |RestrictedSchemes| ==> RestrictedSchemes[k][0] != 'h';
  }

  /** Every listed scheme or Web Store address, in any letter case and with surrounding whitespace, is restricted. */
  lemma ListedPrefixRestricted(url: string, k: nat)
    requires k < |RestrictedSchemes| + |WebStorePrefixes|
    requires StartsWith(Canonical(url), (RestrictedSchemes + WebStorePrefixes)[k])
    ensures RestrictedUrl(Some(url))
  {
    if k < |RestrictedSchemes| {
      assert StartsWith(Canonical(url), RestrictedSchemes[k]);
    } else {
      assert StartsWith(Canonical(url), WebStorePrefixes[k - |RestrictedSchemes|]);
    }
  }

  /** A URL with no whitespace at its ends and no capitals is compared as it is. */
  lemma CanonicalAsIs(url: string)
    requires url != [] && '!' <= url[0] <= '~' && '!' <= url[|url| - 1] <= '~'
    requires forall i :: 0 <= i < |url| ==> !('A' <= url[i] <= 'Z')
    ensures Canonical(url) == url
  {
    LetterNotJsSpace(url[0]);
    LetterNotJsSpace(url[|url| - 1]);
    TrimOfTrimmed(JsWhitespace, url);
    ToLowerNoCapitals(url);
  }

  /** The extensions page, from the repository's own tests, is restricted. */
  lemma ExtensionsPageRestricted()
    ensures RestrictedUrl(Some("chrome://extensions"))
  {
    CanonicalAsIs("chrome://extensions");
    assert StartsWith("chrome://extensions", RestrictedSchemes[0]);
  }

  /** An ordinary https site, from the repository's own tests, is not restricted. */
  lemma ExampleSiteNotRestricted()
    ensures !RestrictedUrl(Some("https://example.com"))
  {
    CanonicalAsIs("https://example.com");
    WebPageNotRestricted("https://example.com");
  }

  const NoReceiverText := "Receiving end does not exist"
  const PortClosedText := "The message port closed" + " before a response was received"
  const CannotAccessText := "Cannot access"
  const NotAllowedText := "not allowed"
  const UnknownErrorMessage := "Unknown error"

  /** The content script is not there to answer. */
  predicate LooksLikeNoReceiver(msg: string) {
    Contains(msg, NoReceiverText) || Contains(msg, PortClosedText)
  }

  /** Chrome refuses the page to extensions. */
  predicate LooksLikeCannotAccess(msg: string) {
    Contains(msg, CannotAccessText) || Contains(msg, NotAllowedText)
  }

  /** Advice for a local file: allow file URLs for the extension, then reload. */
  const FileAdvice := Join([FileProblem, FileRemedy], " ")
  const FileProblem := "无法读取当前页面内容：你打开的是 " + "file://" + " 本地文件。"
  const FileRemedy := "请在 chrome://extensions → 本扩展详情里开启 “Allow access to file URLs”，然后刷新页面再试。"

  /** Advice for a restricted page: switch to an ordinary tab. */
  const RestrictedAdvice := Join([RestrictedProblem, RestrictedRemedy], " ")
  const RestrictedProblem := "无法读取当前页面内容：Chrome " + "不允许" + "在该页面注入脚本（例如 chrome://、扩展页、Chrome Web Store 等）。"
  const RestrictedRemedy := "请切换到普通网页标签页再试。"

  /** Advice when the content script is not ready: reload the tab. */
  const ReloadAdvice := Join([ReloadProblem, ReloadRemedy], " ")
  const ReloadProblem := "无法读取当前页面内容：内容脚本可能尚未注入/未就绪。"
  const ReloadRemedy := "请" + "刷新" + "页面后再试；如果你刚更新/重载了扩展，也可以先刷新该网页标签页再点保存。"

  /** What `humanizeTabSendMessageError` returns. */
  function Humanized(message: string, url: Option<string>): string {
    var msg := Trim(JsWhitespace, message);
    var u := Trim(JsWhitespace, if url.Some? then url.value else "");
    if LooksLikeNoReceiver(msg) || LooksLikeCannotAccess(msg) then
      if StartsWith(ToLower(u), "file://") then FileAdvice
      else if RestrictedUrl(Some(u)) then RestrictedAdvice
      else ReloadAdvice
    else if msg != "" then msg
    else UnknownErrorMessage
  }

  /** `humanizeTabSendMessageError`. */
  method HumanizeTabSendMessageError(message: string, url: Option<string>) returns (r: string)
    ensures r == Humanized(message, url)
  {
    var msg := Trim(JsWhitespace, message);
    var u := Trim(JsWhitespace, if url.Some? then url.value else "");
    if LooksLikeNoReceiver(msg) || LooksLikeCannotAccess(msg) {
      if StartsWith(ToLower(u), "file://") {
        return FileAdvice;
      }
      var restricted := IsRestrictedUrl(Some(u));
      if restricted {
        return RestrictedAdvice;
      }
      return ReloadAdvice;
    }
    if msg != "" {
      return msg;
    }
    return UnknownErrorMessage;
  }

  /** The user always gets some text to read. */
  lemma HumanizedNeverEmpty(message: string, url: Option<string>)
    ensures Humanized(message, url) != ""
  {
  }

  /** An error that is neither kind is passed on trimmed, whatever the page, and an empty one becomes "Unknown error". */
  lemma OtherErrorsPassThrough(message: string, url1: Option<string>, url2: Option<string>)
    requires !LooksLikeNoReceiver(Trim(JsWhitespace, message)) && !LooksLikeCannotAccess(Trim(JsWhitespace, message))
    ensures Humanized(message, url1) == Humanized(message, url2)
    ensures Trim(JsWhitespace, message) != "" ==> Humanized(message, url1) == Trim(JsWhitespace, message)
    ensures Trim(JsWhitespace, message) == "" ==> Humanized(message, url1) == UnknownErrorMessage
  {
  }

  /** The error markers have no whitespace at their ends, so trimming the message never hides one. */
  lemma MarkersSurviveTrim(message: string)
    ensures LooksLikeNoReceiver(Trim(JsWhitespace, message)) <==> LooksLikeNoReceiver(message)
    ensures LooksLikeCannotAccess(Trim(JsWhitespace, message)) <==> LooksLikeCannotAccess(message)
  {
    MarkerSurvivesTrim(message, NoReceiverText);
    MarkerSurvivesTrim(message, PortClosedText);
    MarkerSurvivesTrim(message, CannotAccessText);
    MarkerSurvivesTrim(message, NotAllowedText);
  }

  lemma MarkerSurvivesTrim(message: string, p: string)
    requires p != [] && '!' <= p[0] <= '~' && '!' <= p[|p| - 1] <= '~'
    ensures Contains(Trim(JsWhitespace, message), p) <==> Contains(message, p)
  {
    LetterNotJsSpace(p[0]);
    LetterNotJsSpace(p[|p| - 1]);
    ContainsTrimmed(JsWhitespace, message, p);
  }

  /** A no-receiver or access error always turns into one of the three pieces of advice, chosen by the page. */
  lemma AdviceForTabErrors(message: string, url: Option<string>)
    requires LooksLikeNoReceiver(message) || LooksLikeCannotAccess(message)
    ensures var u := Trim(JsWhitespace, if url.Some? then url.value else "");
      && (StartsWith(Canonical(u), "file://") ==> Humanized(message, url) == FileAdvice)
      && (RestrictedUrl(Some(u)) ==> Humanized(message, url) == RestrictedAdvice)
      && (!StartsWith(Canonical(u), "file://") && !RestrictedUrl(Some(u)) ==> Humanized(message, url) == ReloadAdvice)
  {
    MarkersSurviveTrim(message);
    var u := Trim(JsWhitespace, if url.Some? then url.value else "");
    TrimIdempotent(JsWhitespace, if url.Some? then url.value else "");
    assert Canonical(u) == ToLower(u);
    if StartsWith(Canonical(u), "file://") {
      FileUrlNotRestricted(u);
    }
  }

  /** The advice texts say what the repository's tests look for: the file scheme, a refusal, a reload. */
  lemma AdviceWording()
    ensures Contains(FileAdvice, "file://")
    ensures Contains(RestrictedAdvice, "不允许")
    ensures Contains(ReloadAdvice, "刷新")
  {
    Affixes("无法读取当前页面内容：你打开的是 ", "file://", " 本地文件。");
    ContainsAt(FileProblem, "file://", |"无法读取当前页面内容：你打开的是 "|);
    ContainsInFront(FileProblem, " " + FileRemedy, "file://");
    JoinPair(FileProblem, FileRemedy, " ");
    Affixes("无法读取当前页面内容：Chrome ", "不允许", "在该页面注入脚本（例如 chrome://、扩展页、Chrome Web Store 等）。");
    ContainsAt(RestrictedProblem, "不允许", |"无法读取当前页面内容：Chrome "|);
    ContainsInFront(RestrictedProblem, " " + RestrictedRemedy, "不允许");
    JoinPair(RestrictedProblem, RestrictedRemedy, " ");
    Affixes("请", "刷新", "页面后再试；如果你刚更新/重载了扩展，也可以先刷新该网页标签页再点保存。");
    ContainsAt(ReloadRemedy, "刷新", 1);
    ContainsInBack(ReloadProblem + " ", ReloadRemedy, "刷新");
    JoinPair(ReloadProblem, ReloadRemedy, " ");
  }
}
