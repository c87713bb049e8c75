# Apple Notes web clipper, modelled in Dafny

The clipper is a Chrome extension that turns the current page into Markdown and hands it to a native host, which writes it into Apple Notes. This project models the string and list logic of that pipeline and proves what it promises.

**The extension**
- The content script (`Content`) builds the Markdown envelope. It dispatches between the Twitter/X capture, selection mode and reader mode.
- `Markdown` models the HTML→Markdown image tokenisation: srcset ranking, attribute priority, and the `[[[IMG:n]]]` counter.
- `Twitter` models the Twitter/X rules: host and status-URL parsing, the CDN `orig` rewrite, the image filter, thread selection, `twimg-n` numbering and the block layout.
- `MarkdownRender` models the Markdown clean-up pass before rendering, the fence and inline-code renderers, and the style hooks on markdown-it tokens.
- `ErrorUtils` models the classification of tab-messaging errors.
- `Background` models the background worker's retry policy, folder choice and note request.

**The two native hosts**
- They serialise Markdown into Notes HTML, one `<div>` per line. `NotesBridgePy` models the Python host and `NotesBridgeSwift` the Swift host.
- `HtmlEscape` holds the escaping and indentation both hosts share.
- Both hosts also replace image placeholders with cached files and map MIME types to file extensions.

**The debug tool**
- `DebugPayload` models the tool that renders an exported debug payload into a preview document.

**Shared modules**
- `Common` holds `Option`, `Result` and two list combinators.
- `Text` holds each runtime's whitespace set and trim, split, join, replace and ASCII lower-casing.

**Outside code and imperative parts**
- Outside code is a parameter of function type:
  - Turndown's conversion, markdown-it's render and the WHATWG URL parser;
  - Readability, the DOM queries and the tab's replies;
  - the image cache or download, and `mimetypes.guess_extension`.
- Where the source loops, the model is a method with loop invariants, proved equal to a specification function. These methods are:
  - `normalizeMarkdown`, `extractTweetImages` and `extractTwitterMarkdown`;
  - `extractFromTab`;
  - the hosts' serialisers and token replacement;
  - the debug tool's `main`.
- `appendStyle` changes a token's attributes in place, so `Token` is a class.

## Model

| member | source | states |
|---|---|---|
| Common.KeptResultsMeaning | extension/src/twitter.ts:74-84 | The skip/collect loop succeeds exactly when every kept item converts. On success it holds the kept items' conversions in order. On failure it carries the first failing item's error. |
| Common.FilterAppend | extension/src/twitter.ts:125-128 | Filtering a concatenation is the concatenation of the filtered parts. |
| MarkdownRender.NormalizeLineEndingsIsConvertEol | extension/src/markdown_render.ts:101 | Replacing CRLF first and then lone CR equals a single left-to-right pass in which CRLF and CR each become one LF. |
| MarkdownRender.NormalizeLineEndings | extension/src/markdown_render.ts:101 | No CR is left after line-ending normalisation. |
| MarkdownRender.ConvertEolNoCr | extension/src/markdown_render.ts:101 | Text without CR is unchanged by the conversion. |
| MarkdownRender.KeptLinesSelect | extension/src/markdown_render.ts:105-118 | The kept lines are the input lines at strictly increasing indices, unchanged. A line's index is kept exactly when the line is not dropped. |
| MarkdownRender.KeptLinesHaveNoBrackets | extension/src/markdown_render.ts:109 | No kept line trims to `[` or `]`. |
| MarkdownRender.LabelWithoutFenceKept | extension/src/markdown_render.ts:111-115 | A language label that no fence follows is kept. |
| MarkdownRender.LabelDropped | extension/src/markdown_render.ts:111-115 | A language label with only blank lines, any number of them, between it and an opening fence is dropped: the lines kept from the label on are those kept from the next line on. |
| MarkdownRender.LabelBeforeFenceDropped | extension/src/markdown_render.ts:111-115 | The smallest instance: a label, one blank line, then a fence; the label is dropped. |
| MarkdownRender.BashIsLabel | extension/src/markdown_render.ts:13-30 | `bash` is one of the language labels. |
| MarkdownRender.BracketShieldsLabel | extension/src/markdown_render.ts:109-114 | Label, bracket line, fence keeps the label: the lookahead reads the original lines. |
| MarkdownRender.LabelDroppedOnSecondPass | extension/src/markdown_render.ts:111-114 | On the output of that first pass, the label is dropped, so the clean-up pass is not idempotent. |
| MarkdownRender.CollapseNoTriple | extension/src/markdown_render.ts:120 | After the collapse, no run of three line feeds remains. |
| MarkdownRender.CollapseLeading | extension/src/markdown_render.ts:120 | A leading run of three or more line feeds becomes exactly two. Shorter runs are kept. |
| MarkdownRender.NormalizedShape | extension/src/markdown_render.ts:100-121 | The cleaned-up text has no CR and no `\n\n\n`. It is empty or starts and ends with a non-whitespace character. |
| MarkdownRender.SkipBlankLines | extension/src/markdown_render.ts:112-113 | The inner loop stops at the first non-blank line after `i`, or at the end. |
| MarkdownRender.KeepLines | extension/src/markdown_render.ts:105-118 | The loop with its lookahead keeps exactly the lines the filter specification keeps. |
| MarkdownRender.NormalizeMarkdown | extension/src/markdown_render.ts:100-121 | The method computes the specified clean-up: normalise line endings, filter lines, join, collapse blank runs, trim. |
| MarkdownRender.FenceLanguage | extension/src/markdown_render.ts:48 | The language is the whole first word of the trimmed info string: it starts that string, has no whitespace, and is followed by whitespace or the end. It is empty exactly when the info string is all whitespace. |
| MarkdownRender.RenderFence | extension/src/markdown_render.ts:46-52 | Every fence starts with the styled `<pre><code` and ends with the escaped content and `</code></pre>\n`. The `class="language-…"` attribute, holding the escaped language, appears exactly when the language is non-empty. With a language, the whole markup is the styled opening, ` class="language-` + the escaped language + `">`, the escaped content and `</code></pre>\n`. |
| MarkdownRender.RenderInlineCode | extension/src/markdown_render.ts:54-56 | Inline code is the styled `<code>`, the escaped content and nothing else, then `</code>`. |
| MarkdownRender.Token.constructor | extension/src/markdown_render.ts:40 | A token holds its type and attribute list. |
| MarkdownRender.Token.AttrSet | extension/src/markdown_render.ts:42 | Setting an attribute makes it read back as the new value and leaves every other attribute as it was. A new entry is added only when none existed. |
| MarkdownRender.AppendStyle | extension/src/markdown_render.ts:40-43 | `style` becomes `existing;new` when a non-empty style exists, else `new`. No other attribute changes. |
| MarkdownRender.StyleHook | extension/src/markdown_render.ts:58-98 | Blockquote, table, th, td, paragraph and list openers get their fixed style appended. Every other token is left untouched. |
| MarkdownRender.AppendedStylesJoin | extension/src/markdown_render.ts:40-43 | Appending styles one after another gives the styles joined by `;`, the existing one first. |
| MarkdownRender.RenderMarkdownToHtml | extension/src/markdown_render.ts:123-125 | The render receives the cleaned-up text, which has no CR. |
| Markdown.ParseCandidate | extension/src/markdown.ts:8-12 | A part gives no candidate exactly when it is blank. Otherwise the URL is the whole first whitespace-free run of the trimmed part. The descriptor is the next run, or `""` when the URL is the whole trimmed part. |
| Markdown.Candidates | extension/src/markdown.ts:6-14 | The candidate list is empty exactly when every comma-separated part is blank, and no candidate URL is empty. |
| Markdown.CandidatesOfPart | extension/src/markdown.ts:8-13 | A single part gives its own candidate, or none when it is blank. |
| Markdown.CandidatesAppend | extension/src/markdown.ts:6-14 | The candidates of two runs of parts are the candidates of the first followed by those of the second: parts are read one by one, in order. |
| Markdown.DescriptorScore | extension/src/markdown.ts:19-22 | `Nw` scores N, `Nx` scores N·10000 and anything else scores 1. A non-numeric N counts as 0. |
| Markdown.SortDescFacts | extension/src/markdown.ts:24 | The sort is descending by score and is a permutation of the ranked candidates. |
| Markdown.SortDescHead | extension/src/markdown.ts:24-25 | The head of the stable sort is the first candidate with the maximal score. |
| Markdown.PickBestNone | extension/src/markdown.ts:6-15 | No URL is picked exactly when every comma-separated part is blank. |
| Markdown.PickBestIsFirstMax | extension/src/markdown.ts:17-25 | The picked URL belongs to a candidate that no other outscores. Every earlier candidate scores strictly less. |
| Markdown.PickBestNonEmpty | extension/src/markdown.ts:25 | A picked URL is never empty. |
| Markdown.WidthCanOutrankDensity | extension/src/markdown.ts:20-21 | `20001w` outscores `2x`. |
| Markdown.ToAbsoluteUrl | extension/src/markdown.ts:28-34 | The result is the serialised resolved URL, or the raw string when parsing fails. |
| Markdown.ChosenIsFirstNonEmpty | extension/src/markdown.ts:37-43 | The chosen URL is the first non-empty of: the srcset winner, trimmed `data-original`, trimmed `data-src`, trimmed `src`. |
| Markdown.FirstNonEmptyIsFirst | extension/src/markdown.ts:43 | The `a \|\| b \|\| …` chain yields the first non-empty option, or empty when all are empty. |
| Markdown.ResolveImageUrl | extension/src/markdown.ts:36-46 | There is no URL exactly when every option is empty. Otherwise the URL is the absolute form of the chosen one. |
| Markdown.ImageTokensNumbering | extension/src/markdown.ts:56-67 | References are numbered `next`, `next+1`, … in visiting order, one per image with a URL, carrying that URL and `alt`. Such an image is replaced by its own placeholder. Every other image is replaced by nothing and uses no number. |
| Markdown.TokensDistinct | extension/src/markdown.ts:57-66 | The tokens of one conversion are pairwise distinct. |
| Markdown.HtmlToMarkdownWithImageTokens | extension/src/markdown.ts:48-73 | Numbering starts at 0 on every call. Turndown receives the per-image replacements. The Markdown is trimmed. |
| Twitter.SubdomainIsTwitterHost | extension/src/twitter.ts:3-5 | Any subdomain of a Twitter host is a Twitter host. |
| Twitter.DotBoundary | extension/src/twitter.ts:3-5 | A hostname that only ends in `x.com` without a dot boundary (e.g. `fox.com`) is not a Twitter host. |
| Twitter.Segments | extension/src/twitter.ts:10 | Path segments are non-empty and contain no `/`. |
| Twitter.IndexOf | extension/src/twitter.ts:11 | `indexOf` gives -1 exactly when the item is absent. Otherwise it gives the first occurrence. |
| Twitter.StatusOfSegmentsMeaning | extension/src/twitter.ts:11-16 | A status parses exactly when `status` occurs after the first segment and is followed by a segment. The handle is the first segment and the id is the segment after the first `status`. |
| Twitter.StatusPathRoundTrip | extension/src/twitter.ts:7-16 | `/<handle>/status/<id>` parses back to that handle and id. |
| Twitter.OrigUrl | extension/src/twitter.ts:34-37 | Only `pbs.twimg.com` URLs get `name=orig`. Host, path and the rest of the URL are kept. |
| Twitter.NormalizeTwitterImageUrl | extension/src/twitter.ts:31-42 | An unparsable input is returned unchanged. Otherwise the result is the serialised rewritten URL. |
| Twitter.NormalizeIdempotent | extension/src/twitter.ts:31-42 | Normalising twice equals normalising once, given a URL parser that round-trips. |
| Twitter.PhotosAreKeptImages | extension/src/twitter.ts:67-87 | The photos are the kept images' absolute, normalised URLs with their `alt`, in order. An empty, `profile_images`, `/emoji/` or `data:` src is skipped. The only failure is the URL parser's exception. |
| Twitter.ExtractTweetImages | extension/src/twitter.ts:67-87 | The loop computes exactly the photo list specified above. Photo containers are used when there are any, else every image. |
| Twitter.PreferMatchingMeaning | extension/src/twitter.ts:123-130 | When some post matches the handle, only matching posts are kept, in order. When none matches, all posts are kept. |
| Twitter.TokenNameInjective | extension/src/twitter.ts:144 | Distinct counters give distinct `twimg-n` tokens. |
| Twitter.BlockLayout | extension/src/twitter.ts:152-163 | A post block is the trimmed text, the placeholders after one blank line, the URL after one blank line, and the `---` rule. Without images there are two empty lines between text and URL. |
| Twitter.ThreadNumbering | extension/src/twitter.ts:132-165 | Block `j` is the layout of post `j`'s text, its own photos numbered after all earlier posts' photos, and its URL. The references are the thread's photos in post order, with their URLs and alts, as `twimg-0`, `twimg-1`, …. |
| Twitter.ThreadFailure | extension/src/twitter.ts:136-165 | The thread succeeds exactly when every post's images succeed. A failure carries the error of some post's images. |
| Twitter.OrphanTextPlaceholder | extension/src/twitter.ts:61-65 | When a post text's first image has a URL and Turndown keeps the replacement, the post's text and its block hold `[[[IMG:0]]]`, a placeholder with no image entry. |
| Twitter.OrphanNotNamed | extension/src/twitter.ts:143-150 | No `twimg-` token of a thread names the placeholder `0` of the text conversion. |
| Twitter.FirstPlaceholderKept | extension/src/markdown.ts:48-73 | When the first image has a URL and Turndown keeps its replacement, the converted text holds the line `[[[IMG:0]]]`. |
| Twitter.ThreadFailureSticks | extension/src/twitter.ts:136-165 | Once a post throws, the thread's result is that exception. |
| Twitter.ThreadTokensDistinct | extension/src/twitter.ts:143-150 | A thread's tokens are pairwise distinct. |
| Twitter.PostDataErrors | extension/src/twitter.ts:81 | A post's images can only fail with the URL parser's error. |
| Twitter.CaptureOutcomes | extension/src/twitter.ts:97-178 | A non-Twitter host, a path that is neither status nor article, and a page with no posts each give their own refusal, exactly in those cases. An exception comes only from an image URL. A capture carries the page URL, the `Twitter` folder and a non-empty title. |
| Twitter.CaptureContents | extension/src/twitter.ts:104-175 | An article page is captured with the converted root markup trimmed, its images, and the page title or `X Article`. A status page's capture holds the thread's blocks joined by `\n` and trimmed, the thread's references, and the page title or `@<handle> thread`. |
| Twitter.ThreadCaptureTokens | extension/src/twitter.ts:133-175 | A thread capture has one image per photo of the thread. Image `k` is the `k`-th photo's URL and alt under the token `twimg-k`. |
| Twitter.ExtractTwitterMarkdown | extension/src/twitter.ts:89-178 | The method, with its loop over the thread, returns the specified outcome. |
| Content.HeaderText | extension/src/content.ts:33 | The header is the title line, a blank line, the URL, the capture time, a blank line and the rule. |
| Content.EnvelopeLayout | extension/src/content.ts:31-35 | The envelope is the header through `---`, then a blank line and the trimmed content. With blank content it ends at `---`. |
| Content.SelectionHtml | extension/src/content.ts:9-17 | There is no selection exactly when there is no range, the range is collapsed, or the markup is blank. Otherwise the result is the trimmed markup. |
| Content.ReaderHtmlMeaning | extension/src/content.ts:19-29 | Reader mode has content exactly when Readability returned an article with content. Its title falls back from the article's, to the document's, to `Untitled`. |
| Content.TwitterFirst | extension/src/content.ts:48-61 | A Twitter capture or exception wins whatever the mode. A capture is enveloped and keeps its images and folder. |
| Content.SelectionMode | extension/src/content.ts:63-92 | Off Twitter, selection mode fails exactly without a usable selection. Otherwise it captures the page URL, the converter's images and the envelope under the document title. |
| Content.ReaderMode | extension/src/content.ts:74-92 | Off Twitter, reader mode fails exactly when Readability threw or found nothing. Otherwise it captures the article under its fallback title. |
| Content.HandleExtract | extension/src/content.ts:41-97 | The handler refuses anything but `extract`, then dispatches Twitter, selection or reader as specified. |
| ErrorUtils.StartsWithAny | extension/src/error_utils.ts:1-6 | The loop answers true exactly when some prefix matches. |
| ErrorUtils.IsRestrictedUrl | extension/src/error_utils.ts:8-35 | A missing or empty URL is not restricted. Otherwise the trimmed, lower-cased URL is restricted when it starts with a listed scheme or a Web Store prefix. |
| ErrorUtils.ListedPrefixRestricted | extension/src/error_utils.ts:14-32 | Every listed prefix, `chrome-extension://` among them, makes a URL restricted. |
| ErrorUtils.ExtensionsPageRestricted | extension/src/error_utils.ts:14-27 | `chrome://extensions` is restricted. |
| ErrorUtils.ExampleSiteNotRestricted | extension/src/error_utils.ts:8-35 | `https://example.com` is not restricted. |
| ErrorUtils.FileUrlNotRestricted | extension/src/error_utils.ts:8-35 | `file://` URLs are not restricted. |
| ErrorUtils.WebPageNotRestricted | extension/src/error_utils.ts:8-35 | `http` and `https` URLs outside the Web Store are not restricted. |
| ErrorUtils.CanonicalAsIs | extension/src/error_utils.ts:10 | Lower-case text without surrounding whitespace is its own canonical form. |
| ErrorUtils.HumanizeTabSendMessageError | extension/src/error_utils.ts:37-67 | The method computes the specified advice. |
| ErrorUtils.OtherErrorsPassThrough | extension/src/error_utils.ts:38-66 | Without a no-receiver or cannot-access marker, the result is the trimmed message, or `Unknown error` when that is empty, whatever the URL. |
| ErrorUtils.AdviceForTabErrors | extension/src/error_utils.ts:45-63 | With a marker, a `file://` URL gets the file advice. A restricted URL gets the restricted advice. Anything else gets the reload advice. |
| ErrorUtils.HumanizedNeverEmpty | extension/src/error_utils.ts:37-67 | The advice is never empty. |
| ErrorUtils.MarkersSurviveTrim | extension/src/error_utils.ts:38-43 | Trimming the message does not change whether a marker is present. |
| ErrorUtils.AdviceWording | extension/src/error_utils.ts:47-62 | The file advice mentions `file://`, the restricted advice says the page is not allowed, and the reload advice says to refresh. |
| Background.NoReceiverAgrees | extension/src/background.ts:101-103 | The retry trigger holds exactly when error classification sees a no-receiver marker in the trimmed message. |
| Background.RetryPolicy | extension/src/background.ts:105-131 | Sends go on only while each failure is a no-receiver error, at most 6 in all. A reply ends the run with that reply. The last failure is humanized with the tab URL. |
| Background.FirstReplyWins | extension/src/background.ts:108-128 | After only no-receiver failures, the first reply is returned and no more sends are made. |
| Background.OtherErrorsAreFinal | extension/src/background.ts:108-130 | Any other first error ends the run after one send, with its humanized text. |
| Background.NoReceiverEndsInAdvice | extension/src/background.ts:123-130 | When every send fails with no receiver, 6 sends are made and the result is one of the three advices. |
| Background.ExtractFromTab | extension/src/background.ts:105-131 | The method follows the specified attempts. It injects exactly when the first error is a no-receiver error. |
| Background.FolderPicking | extension/src/background.ts:141-150 | Asking every time picks nothing. A stored folder wins. Otherwise a non-empty suggestion goes to the default account. Otherwise nothing is picked. |
| Background.CreateNoteFromActiveTab | extension/src/background.ts:189-222 | The branch as the worker runs it equals the specified outcome. |
| Background.NoteRequestRules | extension/src/background.ts:198-219 | The request carries the capture unchanged. A given folder overrides picking. The title is the derived one unless that is empty. `html` is present exactly when rendering gave non-empty output. The debug payload records the same folder and mode. |
| Background.FailedExtractionStops | extension/src/background.ts:193-196 | A failed extraction sends nothing and reports its error. |
| HtmlEscape.ReplaceChainIsEscaped | native_host/notes_bridge.py:107-114 | The five replacements with `&` first write every character as its entity. |
| HtmlEscape.AmpersandLastDoubleEscapes | native_host/notes_bridge.py:109 | Replacing `&` last would double-escape `<`. With `&` first it is escaped once. |
| HtmlEscape.EscapedHasNoMarkup | native_host/notes_bridge.py:107-114 | Escaped text contains none of `<`, `>`, `"`, `'`. |
| HtmlEscape.UnescapeEscaped | native_host/notes_bridge.py:107-114 | Decoding the entities gives the text back. |
| HtmlEscape.TabsExpanded | native_host/notes_bridge.py:132 | Expanding tabs to four spaces leaves one space per indentation column. |
| NotesBridgePy.EscapeHtml | native_host/notes_bridge.py:107-114 | `escape_html` writes each special character as its entity. |
| NotesBridgePy.FirstBreak | native_host/notes_bridge.py:118 | The first line ends at the first line-break character `splitlines` knows. |
| NotesBridgePy.SplitLines | native_host/notes_bridge.py:118 | No line contains a line break. |
| NotesBridgePy.SplitLinesJoin | native_host/notes_bridge.py:118 | Lines without breaks, joined by `\n` and not ending in an empty line, split back into themselves. |
| NotesBridgePy.SplitLinesCrLf | native_host/notes_bridge.py:118 | `\r\n` separates two lines, not three. |
| NotesBridgePy.LineToDiv | native_host/notes_bridge.py:122-135 | The loop body writes the specified div for one line. |
| NotesBridgePy.LinesToDivs | native_host/notes_bridge.py:121-135 | The loop writes one div per line, in order. |
| NotesBridgePy.MarkdownWithDataImagesToNotesHtml | native_host/notes_bridge.py:117-136 | The method computes the specified divs joined by `\n`. |
| NotesBridgePy.BlankLineDiv | native_host/notes_bridge.py:122-124 | A whitespace-only line becomes `<div><br></div>`. |
| NotesBridgePy.ImageLineDiv | native_host/notes_bridge.py:125-127 | An image-tag line is written stripped and unescaped inside its div. |
| NotesBridgePy.IndentIsNbsp | native_host/notes_bridge.py:132 | Indentation becomes one `&nbsp;` per space and four per tab. |
| NotesBridgePy.TextLineBody | native_host/notes_bridge.py:128-135 | Any other line is its indentation as `&nbsp;`s, then the rest escaped. A line without indentation is fully escaped. |
| NotesBridgePy.TextLineDiv | native_host/notes_bridge.py:128-135 | The escaped rest decodes back to the line's text and contains no `<` or `>`. |
| NotesBridgePy.DivIsOneLine | native_host/notes_bridge.py:121-135 | A line's div contains no line feed. |
| NotesBridgePy.OneDivPerLine | native_host/notes_bridge.py:118-136 | Splitting the output at `\n` gives back exactly one div per `splitlines()` line. |
| NotesBridgePy.ReplaceImageTokens | native_host/notes_bridge.py:221-231 | The loop replaces images in order. Each placeholder becomes `<img src="…">` of the cached file, or the raw URL when caching raised. |
| NotesBridgePy.NoPlaceholdersUnchanged | native_host/notes_bridge.py:221-231 | Markdown without any of the placeholders is unchanged. |
| NotesBridgePy.ImageShowsUp | native_host/notes_bridge.py:224-230 | A placeholder still present when its image is processed is replaced by the `<img>` tag on success, or by the URL on failure. |
| NotesBridgePy.GuessMimeIgnoresCase | native_host/notes_bridge.py:146-156 | MIME guessing ignores letter case. |
| NotesBridgePy.PathSuffix | native_host/notes_bridge.py:173 | A suffix starts with its only dot, has a character after it and has no `/`. |
| NotesBridgePy.ExtensionFallbacks | native_host/notes_bridge.py:158-178 | The fallbacks in order: the fixed map (any case); else the guessed extension when the guess is non-empty; else the URL suffix when it has 1 to 6 characters counting the dot; else `.bin`. The result is never empty. |
| NotesBridgePy.MimeExtensionRoundTrip | native_host/notes_bridge.py:146-168 | A known image type's extension is guessed back as that type. `image/jpg` comes back as `image/jpeg`. |
| NotesBridgeSwift.EscapeHtml | native_host_macos/NotesBridge.swift:115-123 | The five reassignments write each special character as its entity, as in the Python host. |
| NotesBridgeSwift.SplitNewlines | native_host_macos/NotesBridge.swift:126 | There is at least one component, and no component has a newline character. |
| NotesBridgeSwift.SplitNewlinesJoin | native_host_macos/NotesBridge.swift:126 | Newline-free lines joined by `\n` split back into themselves, empty ones included. |
| NotesBridgeSwift.CrLfSplitsDiffer | native_host_macos/NotesBridge.swift:126 | `a\r\nb` gives three components in Swift, `[a, "", b]`, and two in Python. |
| NotesBridgeSwift.BlankLineDiv | native_host_macos/NotesBridge.swift:129-132 | A line blank under whitespaces-and-newlines becomes `<div><br></div>`. |
| NotesBridgeSwift.ImageLineDiv | native_host_macos/NotesBridge.swift:134-138 | A space-trimmed image-tag line is written trimmed and unescaped inside its div. |
| NotesBridgeSwift.IndentIsNbsp | native_host_macos/NotesBridge.swift:142-147 | Expanding tabs and then mapping spaces gives one `&nbsp;` per column. |
| NotesBridgeSwift.TextLineBody | native_host_macos/NotesBridge.swift:140-148 | Any other line is its indentation as `&nbsp;`s, then the rest escaped. |
| NotesBridgeSwift.LineToDiv | native_host_macos/NotesBridge.swift:129-148 | The loop body writes the specified div. |
| NotesBridgeSwift.LinesToDivs | native_host_macos/NotesBridge.swift:128-149 | The loop writes one div per component, in order. |
| NotesBridgeSwift.MarkdownToNotesHtml | native_host_macos/NotesBridge.swift:125-151 | The method computes the specified divs joined by `\n`. |
| NotesBridgeSwift.OneDivPerLine | native_host_macos/NotesBridge.swift:125-151 | Splitting the output at `\n` gives one div per newline-separated component. |
| NotesBridgeSwift.HostsAgreeOnTextLines | native_host_macos/NotesBridge.swift:140-148 | On a text line both hosts write the same div. |
| NotesBridgeSwift.ExtensionFallbacks | native_host_macos/NotesBridge.swift:163-176 | Known types map as in the Python host. Any other type takes `.` + the path extension when that has 1 to 6 characters, else `.bin`. |
| NotesBridgeSwift.MimeExtensionRoundTrip | native_host_macos/NotesBridge.swift:153-176 | A known type's extension is guessed back as that type. |
| NotesBridgeSwift.ReplaceImageTokens | native_host_macos/NotesBridge.swift:247-260 | The loop replaces each placeholder by the `<img>` tag or the URL, skipping malformed entries. |
| NotesBridgeSwift.HostsAgreeOnImages | native_host_macos/NotesBridge.swift:247-260 | With well-formed entries and the same cache, the Swift and Python replacements agree. |
| NotesBridgeSwift.MalformedEntriesIgnored | native_host_macos/NotesBridge.swift:250 | Entries without a string token or URL change nothing. |
| DebugPayload.Or | tools/render_debug_payload.py:20-30 | `x or default`: a truthy value is kept as it is, any other gives the default. |
| DebugPayload.ShapeSelection | tools/render_debug_payload.py:13-31 | Fields come from `extracted` when it is an object whose `ok` is `True`, else from the top level. A falsy title becomes `Untitled`, a falsy URL or Markdown `""`, and falsy images `[]`. |
| DebugPayload.OkMustBeTrue | tools/render_debug_payload.py:17 | Any `ok` other than `True` selects the top-level fields. |
| DebugPayload.PyStrCases | tools/render_debug_payload.py:48-50 | `str()` keeps a string as it is and writes `None`, booleans and numbers as non-empty text. |
| DebugPayload.CollectImageJobs | tools/render_debug_payload.py:52-64 | The loop builds one job per object item, in order. |
| DebugPayload.JobsCount | tools/render_debug_payload.py:54-64 | The number of jobs is the number of object items. Every other item is skipped. |
| DebugPayload.ReplaceTokensWithUrls | tools/render_debug_payload.py:68-71 | Offline, every placeholder is replaced by its raw URL. |
| DebugPayload.OfflineIsFailedDownloads | tools/render_debug_payload.py:66-71 | Offline replacement equals the host's replacement with every download failing. |
| DebugPayload.DocumentLayout | tools/render_debug_payload.py:73-87 | The document is fixed lines around the escaped title and the fragment. The escaped title has no `<` or `>` and decodes back. |
| DebugPayload.RenderDebugPayload | tools/render_debug_payload.py:45-87 | `main` from the parsed payload computes the specified preview. |
| DebugPayload.OfflinePreview | tools/render_debug_payload.py:66-71 | The preview without downloads equals the preview with every download failing. |
| DebugPayload.PreviewFailsOnlyOnScalarImages | tools/render_debug_payload.py:52-54 | Only a truthy number or boolean as `images` stops the tool. Every other payload renders. |

## Left out

**Outside code and I/O (parameters of function type, or not modelled)**
- Turndown, markdown-it, Readability and the WHATWG URL parser: their behaviour is outside code. Each is a parameter of function type. Only the clipper's own rules around them are modelled.
- The DOM queries, `location`, `document.title` and the selection range: these are DOM state, so they are given as input values.
- Chrome messaging, storage, script injection and `sleep`: these are I/O and timing, so the tab's replies are an oracle indexed by attempt.
- The `nativePing`, `listFolders` and `renderLastDebugHtml` message branches: they only relay native-messaging calls.
- The capture time: `new Date().toISOString()` is a parameter.
- The native messaging framing, AppleScript/JXA, HTTP download, cache directory, TTL cleanup and UUID file names: these are I/O. Image caching is an oracle that succeeds with a file URL or fails.
- Python's `mimetypes.guess_extension` and `urlparse`: these are outside code and are parameters.
- The debug tool's argument parsing, file reading and writing, cache clean-up, and a top-level JSON value that is not an object (which crashes the tool): these are I/O or outside the parsed-payload path.
- The popup and options pages, and the build script: they are UI and build plumbing.

**Parts of the source the model does not describe**
- `deriveTitleFromMarkdown`: `extension/src/background.ts:2` imports it, but `extension/src/markdown_render.ts` does not define it. It is not part of this model and is a parameter of `Background.CreateNote`.
- The X/Twitter header stripping and analytics-line removal that `tools/test_render_html.mjs` expects: they are not in `normalizeMarkdown`, so they are not modelled.
- Twitter.TwitterCapture: the `'X / Twitter'` title fallback (`extension/src/twitter.ts:167`) is unreachable, because `status` is non-null there. It is not modelled as a separate case.

**Contracts stated weaker than the source**
- Markdown.DescriptorScore: JavaScript `Number()` also accepts fractions, signs and exponents such as `1.5x`, the prefixes `0x`, `0b` and `0o` (so `0x10w` scores 16 there and 0 here) and `Infinity`. It is modelled for natural-number descriptors only, because the model has no floating point.
- Text.ToLower: only ASCII letters are lower-cased. `toLowerCase`, `lower()` and `lowercased()` also fold other scripts.
- DebugPayload.PyStr: the `str()` of a list or dict is an oracle, because it depends on Python's `repr`. JSON numbers are integers only, because there is no floating point.
- DebugPayload.JobOf: `alt` is kept only when it is a string. Other JSON values are never used by the host.
- NotesBridgeSwift.ImageLineDiv: `hasPrefix` and `hasSuffix` compare Swift characters (grapheme clusters); the model compares code points, so a combining mark after the final `>` is not modelled.
- NotesBridgeSwift.ExtensionFallbacks: `ext.count` counts grapheme clusters; the model counts code points, which differ only for extensions with combining marks.
- Twitter.NormalizeIdempotent: it holds only for URL parsers that read back their own serialisation.

**Behaviour that may surprise (modelled as the code has it)**
- `normalizeMarkdown` is not idempotent: a second pass can drop a label. See `MarkdownRender.LabelDroppedOnSecondPass`.
- A width of more than 20000w outranks `2x`. At exactly 20000w the scores tie, and the stable sort keeps whichever candidate comes first.
- A tweet's text goes through the generic HTML conversion, whose image list is dropped (`extension/src/twitter.ts:139`). Every image in the text with a URL, emoji included, leaves a `[[[IMG:n]]]` line that no image entry names. The filter for emoji and avatars applies only to the photo list. The text numbering restarts at 0 for each post, so the same orphan line can appear in several posts. Without a `tweetText` node, the text is the whole article, so each photo appears once as an orphan line and once as a `twimg-` line. See `Twitter.OrphanTextPlaceholder`.
- An exception from an image URL in a Twitter thread propagates out of `extractTwitterMarkdown`. The content script reports it as a failed response.
- The hosts differ in two ways:
  - on `\r\n` (`NotesBridgeSwift.CrLfSplitsDiffer`);
  - on the extension-length limit: Python's limit of 6 counts the dot, Swift's does not.
