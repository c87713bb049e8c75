/**
  * Twitter/X capture (extension/src/twitter.ts): recognising the site and
  * status URLs, rewriting CDN images to their original size, filtering the
  * images of a post, selecting the posts of the thread's author, numbering
  * the `twimg-n` placeholders across posts and laying out each post's block.
  * The page is given as values: `location`, `document.title`, the `article`
  * elements and what the clipper reads from each.
  */
module Twitter {
  import opened Common
  import opened Text
  import opened Browser
  import opened Markdown

  // ---------------------------------------------------------------------
  // Hosts

  /** `twitter.com`, `x.com` and their subdomains. */
  predicate IsTwitterHost(hostname: string)
  {
    hostname == "twitter.com" || hostname == "x.com" || EndsWith(hostname, ".twitter.com") || EndsWith(hostname, ".x.com")
  }

  /** Every subdomain of a Twitter host is a Twitter host. */
  lemma SubdomainIsTwitterHost(sub: string, hostname: string)
    requires IsTwitterHost(hostname)
    ensures IsTwitterHost(sub + "." + hostname)
  {
    var h := sub + "." + hostname;
    Affixes(sub, ".", hostname);
    if hostname == "twitter.com" || hostname == "x.com" {
      assert EndsWith(h, "." + hostname);
    } else if EndsWith(hostname, ".twitter.com") {
      EndsWithTrans(".twitter.com", hostname, h);
    } else {
      EndsWithTrans(".x.com", hostname, h);
    }
  }

  /** The suffix test respects the dot: a host merely ending in `x.com`, like `notx.com`, is not Twitter. */
  lemma DotBoundary(hostname: string)
    requires EndsWith(hostname, "x.com") && hostname != "x.com" && hostname[|hostname| - 6] != '.'
    ensures !IsTwitterHost(hostname)
  {
    assert hostname[|hostname| - 5..][0] == 'x';
  }

  // ---------------------------------------------------------------------
  // Status URLs

  /** The author handle and post id of a `/<handle>/status/<id>` URL. */
  datatype Status = Status(handle: string, statusId: string)

  /** `pathname.split('/').filter(Boolean)`: the non-empty path segments. */
  function Segments(pathname: string): (r: seq<string>)
    ensures forall k :: 0 <= k < |r| ==> r[k] != "" && '/' !in r[k]
  {
    Filter(Split(pathname, '/'), (s: string) => s != "")
  }

  /** `parts.indexOf(x)`: the first position of `x`, or -1. */
  function IndexOf(parts: seq<string>, x: string): (i: int)
    ensures -1 <= i < |parts|
    ensures i == -1 <==> x !in parts
    ensures i >= 0 ==> parts[i] == x && x !in parts[..i]
  {
    if parts == [] then -1
    else if parts[0] == x then 0
    else
      var j := IndexOf(parts[1..], x);
      assert forall k :: 1 <= k < |parts| ==> parts[k] == parts[1..][k - 1];
      if j == -1 then -1
      else
        assert parts[..j + 1] == [parts[0]] + parts[1..][..j];
        j + 1
  }

  /** The status named by path segments: `status` must occur after the first segment and be followed by one. */
  function StatusOfSegments(parts: seq<string>): (r: Option<Status>)
  {
    var i := IndexOf(parts, "status");
    if i <= 0 then None
    else if parts[0] == "" || i + 1 >= |parts| || parts[i + 1] == "" then None
    else Some(Status(parts[0], parts[i + 1]))
  }

  /**
    * A status is found exactly when the first `status` segment is neither the
    * first nor the last segment; the handle is the first segment and the id
    * the one after that first `status`.
    */
  lemma StatusOfSegmentsMeaning(parts: seq<string>)
    requires forall k :: 0 <= k < |parts| ==> parts[k] != ""
    ensures StatusOfSegments(parts).Some? <==>
      exists i :: 0 < i < |parts| - 1 && parts[i] == "status" && "status" !in parts[..i]
    ensures forall i :: 0 < i < |parts| - 1 && parts[i] == "status" && "status" !in parts[..i] ==>
      StatusOfSegments(parts) == Some(Status(parts[0], parts[i + 1]))
  {
    var j := IndexOf(parts, "status");
    forall i | 0 < i < |parts| - 1 && parts[i] == "status" && "status" !in parts[..i]
      ensures j == i
    {
    }
    if StatusOfSegments(parts).Some? {
      assert 0 < j < |parts| - 1 && parts[j] == "status" && "status" !in parts[..j];
    }
  }

  /** `parseStatusUrl`: `None` for a URL that does not parse or has no status path. */
  function ParseStatusUrl(url: string, api: UrlApi): Option<Status>
  {
    match api.parse(url, None)
    case None => None
    case Some(u) => StatusOfSegments(Segments(u.pathname))
  }

  /** A status path built from a handle and an id is read back as that handle and id. */
  lemma StatusPathRoundTrip(handle: string, id: string)
    requires handle != "" && id != "" && '/' !in handle && '/' !in id && handle != "status"
    ensures StatusOfSegments(Segments("/" + handle + "/status/" + id)) == Some(Status(handle, id))
  {
    var pieces := ["", handle, "status", id];
    JoinCons("status", [id], "/");
    JoinCons(handle, ["status", id], "/");
    JoinCons("", [handle, "status", id], "/");
    assert Join(pieces, "/") == "/" + handle + "/status/" + id;
    SplitJoin(pieces, '/');
    var keep := (s: string) => s != "";
    assert Filter(pieces, keep) == [handle, "status", id] by {
      assert pieces[1..] == [handle, "status", id];
      FilterAll([handle, "status", id], keep);
    }
    var parts := [handle, "status", id];
    assert IndexOf(parts, "status") == 1 by {
      assert parts[1..][0] == "status";
    }
  }

  /** `isArticleUrl`: the URL parses and its path contains `/i/article/`. */
  predicate IsArticleUrl(url: string, api: UrlApi)
  {
    match api.parse(url, None)
    case None => false
    case Some(u) => Contains(u.pathname, "/i/article/")
  }

  // ---------------------------------------------------------------------
  // Original-size CDN images

  const ImageCdnHost := "pbs.twimg.com"

  /** On the image CDN, the `name` search parameter is set to `orig`; other URLs are kept. */
  function OrigUrl(u: Url): (v: Url)
    ensures v.hostname == u.hostname && v.pathname == u.pathname && v.rest == u.rest
    ensures u.hostname != ImageCdnHost ==> v == u
    ensures u.hostname == ImageCdnHost ==>
      CountNamed(v.search, "name") == 1 && ("name", "orig") in v.search && Without(v.search, "name") == Without(u.search, "name")
  {
    if u.hostname == ImageCdnHost then u.(search := SetSearchParam(u.search, "name", "orig")) else u
  }

  /** `normalizeTwitterImageUrl`: unparsable input is returned unchanged. */
  function NormalizeTwitterImageUrl(raw: string, api: UrlApi): (r: string)
    ensures api.parse(raw, None).None? ==> r == raw
    ensures api.parse(raw, None).Some? ==> r == api.serialize(OrigUrl(api.parse(raw, None).value))
  {
    match api.parse(raw, None)
    case None => raw
    case Some(u) => api.serialize(OrigUrl(u))
  }

  /** When the URL parser reads back what it serialised, normalising twice is normalising once. */
  lemma NormalizeIdempotent(raw: string, api: UrlApi)
    requires api.parse(raw, None).Some? ==>
      api.parse(api.serialize(OrigUrl(api.parse(raw, None).value)), None) == Some(OrigUrl(api.parse(raw, None).value))
    ensures NormalizeTwitterImageUrl(NormalizeTwitterImageUrl(raw, api), api) == NormalizeTwitterImageUrl(raw, api)
  {
    if api.parse(raw, None).Some? {
      var u := api.parse(raw, None).value;
      if u.hostname == ImageCdnHost {
        SetSearchParamIdempotent(u.search, "name", "orig");
      }
    }
  }

  // ---------------------------------------------------------------------
  // Images of a post

  /** What the clipper reads from one `article` element. */
  datatype Post = Post(
    innerText: string,
    /** The `href` of the first link to a `/status/` URL, `""` when it has none; `None` without such a link. */
    link: Option<string>,
    /** The markup of the `tweetText` element, or of the whole article without one. */
    textHtml: string,
    /** The images inside `tweetPhoto` containers. */
    photoImgs: seq<ImgElement>,
    /** Every image of the article. */
    allImgs: seq<ImgElement>)

  /** An image of a post, with its normalised absolute URL. */
  datatype Photo = Photo(url: string, alt: Option<string>)

  /** Photo containers are preferred whenever the post has one; otherwise every image is considered. */
  function ImgEls(post: Post): seq<ImgElement>
  {
    if |post.photoImgs| > 0 then post.photoImgs else post.allImgs
  }

  /** The trimmed `src`, empty when the attribute is absent. */
  function SrcOf(img: ImgElement): string
  {
    match img.src
    case None => ""
    case Some(s) => Trim(JsWhitespace, s)
  }

  /** The avatar/emoji filter: a usable `src` that is no profile image, emoji or inline data. */
  predicate KeepSrc(src: string)
  {
    src != "" && !Contains(src, "profile_images") && !Contains(src, "/emoji/") && !StartsWith(src, "data:")
  }

  /** The image kept for an element: resolving `src` against the page throws on a URL that does not parse. */
  function PhotoOf(img: ImgElement, baseUrl: string, api: UrlApi): Result<Photo, string>
  {
    match api.parse(SrcOf(img), Some(baseUrl))
    case None => Failure(InvalidUrlMessage)
    case Some(u) => Success(Photo(NormalizeTwitterImageUrl(api.serialize(u), api), img.alt))
  }

  /** The filter as a function value. */
  function Kept(): ImgElement -> bool
  {
    (img: ImgElement) => KeepSrc(SrcOf(img))
  }

  /** The images of the first `n` elements, stopping at the first that throws. */
  function Photos(imgs: seq<ImgElement>, n: nat, baseUrl: string, api: UrlApi): Result<seq<Photo>, string>
    requires n <= |imgs|
  {
    KeptResults(imgs, n, Kept(), (img: ImgElement) => PhotoOf(img, baseUrl, api))
  }

  /**
    * The images of a post are exactly the filtered elements, in order, each
    * with its resolved and normalised URL and its `alt`; extraction throws
    * exactly when one of the filtered elements has a `src` that does not
    * parse, and then with the URL parser's message.
    */
  lemma PhotosAreKeptImages(imgs: seq<ImgElement>, n: nat, baseUrl: string, api: UrlApi)
    requires n <= |imgs|
    ensures Photos(imgs, n, baseUrl, api).Success? <==>
      forall k :: 0 <= k < n && KeepSrc(SrcOf(imgs[k])) ==> api.parse(SrcOf(imgs[k]), Some(baseUrl)).Some?
    ensures Photos(imgs, n, baseUrl, api).Failure? ==> Photos(imgs, n, baseUrl, api).error == InvalidUrlMessage
    ensures Photos(imgs, n, baseUrl, api).Success? ==>
      var ps := Photos(imgs, n, baseUrl, api).value;
      var kept := Filter(imgs[..n], Kept());
      |ps| == |kept| && forall k :: 0 <= k < |ps| ==> PhotoOf(kept[k], baseUrl, api) == Success(ps[k])
  {
    KeptResultsMeaning(imgs, n, Kept(), (img: ImgElement) => PhotoOf(img, baseUrl, api));
  }

  /** `extractTweetImages`: the loop over the candidate elements, throwing where `new URL` throws. */
  method ExtractTweetImages(post: Post, baseUrl: string, api: UrlApi) returns (r: Result<seq<Photo>, string>)
    ensures r == Photos(ImgEls(post), |ImgEls(post)|, baseUrl, api)
  {
    var imgEls := if |post.photoImgs| > 0 then post.photoImgs else post.allImgs;
    var images: seq<Photo> := [];
    var i := 0;
    while i < |imgEls|
      invariant 0 <= i <= |imgEls|
      invariant Photos(imgEls, i, baseUrl, api) == Success(images)
    {
      var img := imgEls[i];
      i := i + 1;
      var src := SrcOf(img);
      if src == "" || Contains(src, "profile_images") || Contains(src, "/emoji/") || StartsWith(src, "data:") {
        continue;
      }
      var abs := api.parse(src, Some(baseUrl));
      if abs.None? {
        KeptResultsFailureSticks(imgEls, i, |imgEls|, Kept(), (img: ImgElement) => PhotoOf(img, baseUrl, api));
        return Failure(InvalidUrlMessage);
      }
      var url := NormalizeTwitterImageUrl(api.serialize(abs.value), api);
      images := images + [Photo(url, img.alt)];
    }
    return Success(images);
  }

  // ---------------------------------------------------------------------
  // The posts of the thread

  /** The permalink of a post: its status and the absolute URL of the link. */
  datatype Permalink = Permalink(status: Status, url: string)

  /** `getArticlePermalink`: the status link resolved against the page origin, if it names a status. */
  function PermalinkOf(post: Post, origin: string, api: UrlApi): Option<Permalink>
  {
    match post.link
    case None => None
    case Some(href) =>
      match api.parse(href, Some(origin))
      case None => None
      case Some(u) =>
        var url := api.serialize(u);
        match ParseStatusUrl(url, api)
        case None => None
        case Some(st) => Some(Permalink(st, url))
  }

  /** `findTweetArticles`: the articles whose text is not blank. */
  function FindTweetArticles(articles: seq<Post>): seq<Post>
  {
    Filter(articles, (a: Post) => Trim(JsWhitespace, a.innerText) != "")
  }

  /** A post whose permalink handle equals `target` once lower-cased. */
  predicate ByAuthor(post: Post, origin: string, target: string, api: UrlApi)
  {
    var pl := PermalinkOf(post, origin, api);
    pl.Some? && ToLower(pl.value.status.handle) == target
  }

  /** The elements that satisfy `p`, in order, or all of them when none does. */
  function PreferMatching<T>(xs: seq<T>, p: T -> bool): seq<T>
  {
    var matching := Filter(xs, p);
    if matching == [] then xs else matching
  }

  /**
    * When some element satisfies `p`, exactly those that do are kept, in
    * order; otherwise every element is.
    */
  lemma PreferMatchingMeaning<T>(xs: seq<T>, p: T -> bool)
    ensures (exists k :: 0 <= k < |xs| && p(xs[k])) ==>
      PreferMatching(xs, p) == Filter(xs, p) &&
      (forall k :: 0 <= k < |PreferMatching(xs, p)| ==> p(PreferMatching(xs, p)[k])) &&
      (forall x :: x in xs && p(x) ==> x in PreferMatching(xs, p))
    ensures (forall k :: 0 <= k < |xs| ==> !p(xs[k])) ==> PreferMatching(xs, p) == xs
  {
    if exists k :: 0 <= k < |xs| && p(xs[k]) {
      var k :| 0 <= k < |xs| && p(xs[k]);
      assert xs[k] in Filter(xs, p);
    }
  }

  /** The posts of the thread: those of the status's author in page order, or every post when none is. */
  function ThreadPosts(posts: seq<Post>, origin: string, handle: string, api: UrlApi): seq<Post>
  {
    PreferMatching(posts, (a: Post) => ByAuthor(a, origin, ToLower(handle), api))
  }

  // ---------------------------------------------------------------------
  // Blocks and placeholders

  /** The token of the `k`-th image of a capture. */
  function TokenName(k: nat): string
  {
    "twimg-" + NatToString(k)
  }

  /** Different positions get different tokens. */
  lemma TokenNameInjective(i: nat, j: nat)
    requires TokenName(i) == TokenName(j)
    ensures i == j
  {
    assert NatToString(i) == TokenName(i)[6..] == TokenName(j)[6..] == NatToString(j);
    NatToStringInjective(i, j);
  }

  /** A placeholder line (without the blank lines of `Markdown.Placeholder`). */
  function PlaceholderLine(token: string): string
  {
    "[[[IMG:" + token + "]]]"
  }

  /** The references of a post's images, numbered from `next`. */
  function NumberPhotos(photos: seq<Photo>, next: nat): seq<ImageRef>
  {
    seq(|photos|, k requires 0 <= k < |photos| => ImageRef(TokenName(next + k), photos[k].url, photos[k].alt))
  }

  /** The placeholder lines of a post's references, joined by newlines. */
  function ImageLines(refs: seq<ImageRef>): string
  {
    Join(seq(|refs|, k requires 0 <= k < |refs| => PlaceholderLine(refs[k].token)), "\n")
  }

  /**
    * A post's block: its trimmed text, a blank line only when it has images,
    * the placeholder lines, a blank line, the post URL, a blank line, `---`
    * and a final empty line, joined by newlines (the `null` entry of the
    * source's array is the missing blank line).
    */
  function PostBlock(text: string, refs: seq<ImageRef>, displayUrl: string): string
  {
    Join([Trim(JsWhitespace, text)] + (if |refs| > 0 then [""] else []) + [ImageLines(refs), "", displayUrl, "", "---", ""], "\n")
  }

  /** The joined block entries, written out. */
  lemma JoinBlock(t: string, lines: string, displayUrl: string, blank: bool)
    ensures Join([t] + (if blank then [""] else []) + [lines, "", displayUrl, "", "---", ""], "\n") ==
      t + (if blank then "\n\n" else "\n") + lines + "\n\n" + displayUrl + "\n\n---\n"
  {
    var l2 := [displayUrl, "", "---", ""];
    var rest := [lines, "", displayUrl, "", "---", ""];
    var body := Join(rest, "\n");
    assert body == lines + "\n\n" + displayUrl + "\n\n---\n" by {
      JoinBeforeRule(displayUrl);
      JoinCons("", l2, "\n");
      JoinCons(lines, [""] + l2, "\n");
      assert rest == [lines] + ([""] + l2);
    }
    if blank {
      JoinCons("", rest, "\n");
      JoinCons(t, [""] + rest, "\n");
      assert [t] + [""] + rest == [t] + ([""] + rest);
    } else {
      JoinCons(t, rest, "\n");
      assert [t] + [] + rest == [t] + rest;
    }
  }

  /**
    * The block written out: the text, then the placeholders after one blank
    * line, then the URL after one blank line, then the rule; a post without
    * images has two empty lines between its text and its URL.
    */
  lemma BlockLayout(text: string, refs: seq<ImageRef>, displayUrl: string)
    ensures |refs| > 0 ==>
              PostBlock(text, refs, displayUrl) ==
              Trim(JsWhitespace, text) + "\n\n" + ImageLines(refs) + "\n\n" + displayUrl + "\n\n---\n"
    ensures |refs| == 0 ==>
              PostBlock(text, refs, displayUrl) == Trim(JsWhitespace, text) + "\n\n\n" + displayUrl + "\n\n---\n"
  {
    JoinBlock(Trim(JsWhitespace, text), ImageLines(refs), displayUrl, |refs| > 0);
  }

  /** The page the clipper runs on. */
  datatype Page = Page(
    href: string,
    hostname: string,
    origin: string,
    /** `document.title`. */
    title: string,
    /** Every `article` element, in document order. */
    articles: seq<Post>,
    /** The markup of the first `article`, else of `main`, else of the body. */
    rootHtml: string)

  /** What the loop reads from one post before numbering its images. */
  datatype PostData = PostData(displayUrl: string, markdown: string, photos: Result<seq<Photo>, string>)

  /** The post's permalink (or the page URL), its text as Markdown, and its images. */
  function ExtractPost(post: Post, page: Page, htmlApi: HtmlApi, urlApi: UrlApi): PostData
  {
    var pl := PermalinkOf(post, page.origin, urlApi);
    var displayUrl := if pl.Some? then pl.value.url else page.href;
    PostData(displayUrl, ConvertHtml(post.textHtml, page.href, htmlApi, urlApi).0,
      Photos(ImgEls(post), |ImgEls(post)|, page.href, urlApi))
  }

  /** The line inside an image rule's replacement survives trimming of the text that holds it. */
  lemma PlaceholderLineTrimmed(t: string, token: string)
    requires Contains(t, Placeholder(token))
    ensures Contains(Trim(JsWhitespace, t), PlaceholderLine(token))
  {
    var line := PlaceholderLine(token);
    var i := ContainsWitness(t, Placeholder(token));
    assert Placeholder(token)[1..1 + |line|] == line;
    ContainsAt(Placeholder(token), line, 1);
    ContainsOfSlice(t, i, |Placeholder(token)|, line);
    LetterNotJsSpace('[');
    LetterNotJsSpace(']');
    ContainsTrimmed(JsWhitespace, t, line);
  }

  /** What a post's trimmed text holds, its block holds. */
  lemma BlockKeepsText(text: string, refs: seq<ImageRef>, displayUrl: string, p: string)
    requires Contains(Trim(JsWhitespace, text), p)
    ensures Contains(PostBlock(text, refs, displayUrl), p)
  {
    BlockLayout(text, refs, displayUrl);
    var tail := if |refs| > 0 then "\n\n" + ImageLines(refs) + "\n\n" + displayUrl + "\n\n---\n"
                else "\n\n\n" + displayUrl + "\n\n---\n";
    assert PostBlock(text, refs, displayUrl) == Trim(JsWhitespace, text) + tail;
    ContainsInFront(Trim(JsWhitespace, text), tail, p);
  }

  /**
    * The post text goes through the generic conversion, whose image rule
    * numbers its own placeholders from `0` and whose references are dropped:
    * when the text's first image has a URL and Turndown keeps the rule's
    * replacement, the post's text and so its block carry the line
    * `[[[IMG:0]]]`, which no `twimg-` reference of the thread names.
    */
  lemma OrphanTextPlaceholder(post: Post, page: Page, htmlApi: HtmlApi, urlApi: UrlApi, refs: seq<ImageRef>)
    requires var found := Survey(htmlApi.imagesOf(post.textHtml), page.href, urlApi);
      found != [] && Hit(found[0])
    requires forall reps :: |reps| > 0 ==> Contains(htmlApi.turndown(post.textHtml, reps), reps[0])
    ensures var d := ExtractPost(post, page, htmlApi, urlApi);
      Contains(d.markdown, PlaceholderLine(NatToString(0))) &&
      Contains(PostBlock(d.markdown, refs, d.displayUrl), PlaceholderLine(NatToString(0)))
  {
    var line := PlaceholderLine(NatToString(0));
    var d := ExtractPost(post, page, htmlApi, urlApi);
    FirstPlaceholderKept(post.textHtml, page.href, htmlApi, urlApi);
    assert d.markdown == ConvertHtml(post.textHtml, page.href, htmlApi, urlApi).0;
    LetterNotJsSpace('[');
    LetterNotJsSpace(']');
    ContainsTrimmed(JsWhitespace, d.markdown, line);
    BlockKeepsText(d.markdown, refs, d.displayUrl, line);
  }

  /** No reference of a thread names the generic conversion's placeholder `0`. */
  lemma OrphanNotNamed(k: nat)
    ensures PlaceholderLine(TokenName(k)) != PlaceholderLine(NatToString(0))
  {
    assert PlaceholderLine(TokenName(k))[7] == 't' != '0' == PlaceholderLine(NatToString(0))[7];
  }

  /** The conversion's text keeps the line of its first placeholder when Turndown keeps the replacement. */
  lemma FirstPlaceholderKept(html: string, baseUrl: string, htmlApi: HtmlApi, urlApi: UrlApi)
    requires var found := Survey(htmlApi.imagesOf(html), baseUrl, urlApi);
      found != [] && Hit(found[0])
    requires forall reps :: |reps| > 0 ==> Contains(htmlApi.turndown(html, reps), reps[0])
    ensures Contains(ConvertHtml(html, baseUrl, htmlApi, urlApi).0, PlaceholderLine(NatToString(0)))
  {
    var found := Survey(htmlApi.imagesOf(html), baseUrl, urlApi);
    var out := ImageTokens(found, 0);
    assert out.0[0] == Placeholder(NatToString(0));
    var t := htmlApi.turndown(html, out.0);
    assert Contains(t, Placeholder(NatToString(0)));
    PlaceholderLineTrimmed(t, NatToString(0));
  }

  /** The blocks and references of the first `n` posts, numbering images across posts. */
  function Thread(data: seq<PostData>, n: nat): Result<(seq<string>, seq<ImageRef>), string>
    requires n <= |data|
  {
    if n == 0 then Success(([], []))
    else
      match Thread(data, n - 1)
      case Failure(e) => Failure(e)
      case Success(acc) =>
        match data[n - 1].photos
        case Failure(e) => Failure(e)
        case Success(photos) =>
          var refs := NumberPhotos(photos, |acc.1|);
          Success((acc.0 + [PostBlock(data[n - 1].markdown, refs, data[n - 1].displayUrl)], acc.1 + refs))
  }

  lemma {:induction false} ThreadFailureSticks(data: seq<PostData>, i: nat, n: nat)
    requires i <= n <= |data| && Thread(data, i).Failure?
    ensures Thread(data, n) == Thread(data, i)
    decreases n
  {
    if n > i {
      ThreadFailureSticks(data, i, n - 1);
    }
  }

  /** The images of the first `n` posts, one post after the other (a post whose images failed adds none). */
  function ThreadPhotos(data: seq<PostData>, n: nat): seq<Photo>
    requires n <= |data|
  {
    if n == 0 then [] else ThreadPhotos(data, n - 1) + (if data[n - 1].photos.Success? then data[n - 1].photos.value else [])
  }

  /** The references are the photos in order, with their URLs and alts, numbered from `twimg-0`. */
  predicate NumberedAs(refs: seq<ImageRef>, photos: seq<Photo>) {
    |refs| == |photos| && forall k :: 0 <= k < |photos| ==> refs[k] == ImageRef(TokenName(k), photos[k].url, photos[k].alt)
  }

  /** Numbering more photos from where the others stopped keeps the numbering. */
  lemma NumberedAsAppend(refs: seq<ImageRef>, photos: seq<Photo>, more: seq<Photo>)
    requires NumberedAs(refs, photos)
    ensures NumberedAs(refs + NumberPhotos(more, |refs|), photos + more)
  {
    var refs', all := refs + NumberPhotos(more, |refs|), photos + more;
    forall k | 0 <= k < |all|
      ensures refs'[k] == ImageRef(TokenName(k), all[k].url, all[k].alt)
    {
      if k >= |refs| {
        assert refs'[k] == NumberPhotos(more, |refs|)[k - |refs|];
        assert all[k] == more[k - |refs|];
      } else {
        assert refs'[k] == refs[k] && all[k] == photos[k];
      }
    }
  }

  /** The block of a post whose images are numbered from `start`. */
  function BlockOf(post: PostData, start: nat): string
    requires post.photos.Success?
  {
    PostBlock(post.markdown, NumberPhotos(post.photos.value, start), post.displayUrl)
  }

  /** What a successful thread of the first `n` posts holds. */
  predicate ThreadHolds(data: seq<PostData>, n: nat, blocks: seq<string>, refs: seq<ImageRef>)
    requires n <= |data|
  {
    && (forall j :: 0 <= j < n ==> data[j].photos.Success?)
    && |blocks| == n
    && NumberedAs(refs, ThreadPhotos(data, n))
    && (forall j {:trigger blocks[j]} :: 0 <= j < n ==> blocks[j] == BlockOf(data[j], |ThreadPhotos(data, j)|))
  }

  /** One more post: its block follows the others, and its numbered images follow theirs. */
  lemma ThreadHoldsStep(data: seq<PostData>, n: nat, blocks: seq<string>, refs: seq<ImageRef>)
    requires 0 < n <= |data| && ThreadHolds(data, n - 1, blocks, refs) && data[n - 1].photos.Success?
    ensures ThreadHolds(data, n, blocks + [BlockOf(data[n - 1], |refs|)], refs + NumberPhotos(data[n - 1].photos.value, |refs|))
  {
    var post := data[n - 1];
    var more := NumberPhotos(post.photos.value, |refs|);
    var refs' := refs + more;
    var blocks' := blocks + [BlockOf(post, |refs|)];
    assert forall j :: 0 <= j < n ==> data[j].photos.Success?;
    assert NumberedAs(refs', ThreadPhotos(data, n)) by {
      assert ThreadPhotos(data, n) == ThreadPhotos(data, n - 1) + post.photos.value;
      NumberedAsAppend(refs, ThreadPhotos(data, n - 1), post.photos.value);
    }
    assert forall j {:trigger blocks'[j]} :: 0 <= j < n ==> blocks'[j] == BlockOf(data[j], |ThreadPhotos(data, j)|) by {
      forall j | 0 <= j < n
        ensures blocks'[j] == BlockOf(data[j], |ThreadPhotos(data, j)|)
      {
        if j < n - 1 {
          assert blocks'[j] == blocks[j];
        }
      }
    }
  }

  /**
    * The thread fails exactly when some post's images failed, and then with
    * such a post's error.
    */
  lemma {:induction false} ThreadFailure(data: seq<PostData>, n: nat)
    requires n <= |data|
    ensures Thread(data, n).Success? <==> forall j :: 0 <= j < n ==> data[j].photos.Success?
    ensures Thread(data, n).Failure? ==>
      exists k :: 0 <= k < n && data[k].photos == Failure(Thread(data, n).error)
  {
    if n > 0 {
      ThreadFailure(data, n - 1);
    }
  }

  /**
    * One block per post, each laid out from that post's text, its own image
    * references and its URL; the references are the posts' images in order,
    * with their URLs and alts and the tokens `twimg-0`, `twimg-1`, ... across
    * the whole thread.
    */
  lemma {:induction false} ThreadNumbering(data: seq<PostData>, n: nat)
    requires n <= |data|
    ensures Thread(data, n).Success? ==>
      ThreadHolds(data, n, Thread(data, n).value.0, Thread(data, n).value.1)
  {
    if n > 0 {
      ThreadNumbering(data, n - 1);
      var prev := Thread(data, n - 1);
      if prev.Success? && data[n - 1].photos.Success? {
        ThreadHoldsStep(data, n, prev.value.0, prev.value.1);
      }
    }
  }

  /** The tokens of a thread are pairwise distinct. */
  lemma ThreadTokensDistinct(data: seq<PostData>)
    requires Thread(data, |data|).Success?
    ensures var refs := Thread(data, |data|).value.1;
      forall i, j :: 0 <= i < j < |refs| ==> refs[i].token != refs[j].token
  {
    ThreadNumbering(data, |data|);
    var refs := Thread(data, |data|).value.1;
    forall i, j | 0 <= i < j < |refs| ensures refs[i].token != refs[j].token {
      if refs[i].token == refs[j].token {
        TokenNameInjective(i, j);
      }
    }
  }

  /** What the loop reads from each post of the thread. */
  function ThreadData(posts: seq<Post>, page: Page, htmlApi: HtmlApi, urlApi: UrlApi): (data: seq<PostData>)
    ensures |data| == |posts|
    ensures forall k :: 0 <= k < |posts| ==> data[k] == ExtractPost(posts[k], page, htmlApi, urlApi)
  {
    seq(|posts|, k requires 0 <= k < |posts| => ExtractPost(posts[k], page, htmlApi, urlApi))
  }

  // ---------------------------------------------------------------------
  // The capture

  /** A successful capture. */
  datatype Capture = Capture(title: string, sourceUrl: string, markdown: string, images: seq<ImageRef>, suggestedFolderPath: string)

  /** `{ok: true, ...}`, `{ok: false, error}`, or an exception escaping the function. */
  datatype Outcome = Captured(capture: Capture) | Refused(error: string) | Threw(message: string)

  const NotTwitterMessage := "Not a Twitter/X page"
  const NotStatusMessage := "Open a tweet (/status/\U{2026}) or an article (/i/article/\U{2026}), then retry."
  const NoTweetsMessage := "No tweets found on this page (try scrolling a bit, then retry)."
  const TwitterFolder := "Twitter"

  /** What `extractTwitterMarkdown` returns or throws. */
  function TwitterCapture(page: Page, htmlApi: HtmlApi, urlApi: UrlApi): Outcome
  {
    if !IsTwitterHost(page.hostname) then Refused(NotTwitterMessage)
    else
      var status := ParseStatusUrl(page.href, urlApi);
      if status.None? && IsArticleUrl(page.href, urlApi) then
        var conv := ConvertHtml(page.rootHtml, page.href, htmlApi, urlApi);
        var title := if page.title != "" then page.title else "X Article";
        Captured(Capture(title, page.href, Trim(JsWhitespace, conv.0), conv.1, TwitterFolder))
      else if status.None? then Refused(NotStatusMessage)
      else
        var articles := FindTweetArticles(page.articles);
        if articles == [] then Refused(NoTweetsMessage)
        else
          var data := ThreadData(ThreadPosts(articles, page.origin, status.value.handle, urlApi), page, htmlApi, urlApi);
          match Thread(data, |data|)
          case Failure(e) => Threw(e)
          case Success(acc) =>
            var title := if page.title != "" then page.title else "@" + status.value.handle + " thread";
            Captured(Capture(title, page.href, Trim(JsWhitespace, Join(acc.0, "\n")), acc.1, TwitterFolder))
  }

  /** Reading a post's images can only fail with the URL parser's message. */
  lemma PostDataErrors(posts: seq<Post>, page: Page, htmlApi: HtmlApi, urlApi: UrlApi)
    ensures var data := ThreadData(posts, page, htmlApi, urlApi);
      forall k :: 0 <= k < |data| && data[k].photos.Failure? ==> data[k].photos.error == InvalidUrlMessage
  {
    var data := ThreadData(posts, page, htmlApi, urlApi);
    forall k | 0 <= k < |data| && data[k].photos.Failure?
      ensures data[k].photos.error == InvalidUrlMessage
    {
      var imgs := ImgEls(posts[k]);
      PhotosAreKeptImages(imgs, |imgs|, page.href, urlApi);
    }
  }

  /**
    * The outcomes: each refusal has its own message and its own cause, an
    * exception can only come from an image URL, and every success comes
    * from the page's URL, suggests the `Twitter` folder and has a title.
    */
  lemma CaptureOutcomes(page: Page, htmlApi: HtmlApi, urlApi: UrlApi)
    ensures var r := TwitterCapture(page, htmlApi, urlApi);
      var status := ParseStatusUrl(page.href, urlApi);
      (r == Refused(NotTwitterMessage) <==> !IsTwitterHost(page.hostname)) &&
      (r == Refused(NotStatusMessage) <==>
        IsTwitterHost(page.hostname) && status.None? && !IsArticleUrl(page.href, urlApi)) &&
      (r == Refused(NoTweetsMessage) <==>
        IsTwitterHost(page.hostname) && status.Some? && FindTweetArticles(page.articles) == []) &&
      (r.Threw? ==> r.message == InvalidUrlMessage) &&
      (r.Captured? ==>
        r.capture.sourceUrl == page.href && r.capture.suggestedFolderPath == TwitterFolder && r.capture.title != "")
  {
    var status := ParseStatusUrl(page.href, urlApi);
    var articles := FindTweetArticles(page.articles);
    if IsTwitterHost(page.hostname) && status.Some? && articles != [] {
      var posts := ThreadPosts(articles, page.origin, status.value.handle, urlApi);
      var data := ThreadData(posts, page, htmlApi, urlApi);
      if Thread(data, |data|).Failure? {
        ThreadFailure(data, |data|);
        PostDataErrors(posts, page, htmlApi, urlApi);
        assert Thread(data, |data|).error == InvalidUrlMessage;
      }
    }
  }

  /**
    * What a capture holds. An article page gives the converted root markup,
    * trimmed, with its images, under the page title or `X Article`. A status
    * page gives the thread's blocks joined by newlines and trimmed, with the
    * thread's references, under the page title or `@<handle> thread`.
    */
  lemma CaptureContents(page: Page, htmlApi: HtmlApi, urlApi: UrlApi)
    ensures var r := TwitterCapture(page, htmlApi, urlApi);
      var status := ParseStatusUrl(page.href, urlApi);
      var conv := ConvertHtml(page.rootHtml, page.href, htmlApi, urlApi);
      (IsTwitterHost(page.hostname) && status.None? && IsArticleUrl(page.href, urlApi) ==>
        && r.Captured?
        && r.capture.title == (if page.title != "" then page.title else "X Article")
        && r.capture.markdown == Trim(JsWhitespace, conv.0)
        && r.capture.images == conv.1)
    ensures var r := TwitterCapture(page, htmlApi, urlApi);
      var status := ParseStatusUrl(page.href, urlApi);
      (r.Captured? && status.Some? ==>
        var data := ThreadData(ThreadPosts(FindTweetArticles(page.articles), page.origin, status.value.handle, urlApi), page, htmlApi, urlApi);
        var t := Thread(data, |data|);
        && t.Success?
        && r.capture.title == (if page.title != "" then page.title else "@" + status.value.handle + " thread")
        && r.capture.markdown == Trim(JsWhitespace, Join(t.value.0, "\n"))
        && ThreadHolds(data, |data|, t.value.0, r.capture.images))
  {
    var r := TwitterCapture(page, htmlApi, urlApi);
    var status := ParseStatusUrl(page.href, urlApi);
    if r.Captured? && status.Some? {
      var data := ThreadData(ThreadPosts(FindTweetArticles(page.articles), page.origin, status.value.handle, urlApi), page, htmlApi, urlApi);
      ThreadNumbering(data, |data|);
    }
  }

  /**
    * A thread capture's images are the thread's photos in post order, with
    * their URLs and alts, numbered `twimg-0`, `twimg-1`, ... across the posts.
    */
  lemma ThreadCaptureTokens(page: Page, htmlApi: HtmlApi, urlApi: UrlApi)
    requires TwitterCapture(page, htmlApi, urlApi).Captured? && ParseStatusUrl(page.href, urlApi).Some?
    ensures var images := TwitterCapture(page, htmlApi, urlApi).capture.images;
      var status := ParseStatusUrl(page.href, urlApi);
      var data := ThreadData(ThreadPosts(FindTweetArticles(page.articles), page.origin, status.value.handle, urlApi), page, htmlApi, urlApi);
      var all := ThreadPhotos(data, |data|);
      |images| == |all| &&
      forall k :: 0 <= k < |images| ==> images[k] == ImageRef(TokenName(k), all[k].url, all[k].alt)
  {
    var status := ParseStatusUrl(page.href, urlApi);
    var posts := ThreadPosts(FindTweetArticles(page.articles), page.origin, status.value.handle, urlApi);
    var data := ThreadData(posts, page, htmlApi, urlApi);
    ThreadNumbering(data, |data|);
  }

  /** `extractTwitterMarkdown`: the dispatch, then the loop over the thread's posts. */
  method ExtractTwitterMarkdown(page: Page, htmlApi: HtmlApi, urlApi: UrlApi) returns (r: Outcome)
    ensures r == TwitterCapture(page, htmlApi, urlApi)
  {
    if !IsTwitterHost(page.hostname) {
      return Refused(NotTwitterMessage);
    }
    var status := ParseStatusUrl(page.href, urlApi);
    var baseUrl := page.href;
    if status.None? && IsArticleUrl(page.href, urlApi) {
      var markdown, images := HtmlToMarkdownWithImageTokens(page.rootHtml, baseUrl, htmlApi, urlApi);
      var title := if page.title != "" then page.title else "X Article";
      return Captured(Capture(title, page.href, Trim(JsWhitespace, markdown), images, TwitterFolder));
    }
    if status.None? {
      return Refused(NotStatusMessage);
    }
    var articles := FindTweetArticles(page.articles);
    if |articles| == 0 {
      return Refused(NoTweetsMessage);
    }
    var threadArticles := ThreadPosts(articles, page.origin, status.value.handle, urlApi);
    ghost var data := ThreadData(threadArticles, page, htmlApi, urlApi);
    var pieces: seq<string> := [];
    var allImages: seq<ImageRef> := [];
    var imgCounter := 0;
    var i := 0;
    while i < |threadArticles|
      invariant 0 <= i <= |threadArticles|
      invariant Thread(data, i) == Success((pieces, allImages))
      invariant imgCounter == |allImages|
    {
      var article := threadArticles[i];
      var pl := PermalinkOf(article, page.origin, urlApi);
      var displayUrl := if pl.Some? then pl.value.url else page.href;
      var markdown, _ := HtmlToMarkdownWithImageTokens(article.textHtml, baseUrl, htmlApi, urlApi);
      var tweetImages := ExtractTweetImages(article, baseUrl, urlApi);
      assert data[i] == PostData(displayUrl, markdown, tweetImages);
      if tweetImages.Failure? {
        ThreadFailureSticks(data, i + 1, |data|);
        return Threw(tweetImages.error);
      }
      var imgRefs := NumberPhotos(tweetImages.value, imgCounter);
      imgCounter := imgCounter + |imgRefs|;
      allImages := allImages + imgRefs;
      pieces := pieces + [PostBlock(markdown, imgRefs, displayUrl)];
      i := i + 1;
    }
    var title := if page.title != "" then page.title else "@" + status.value.handle + " thread";
    return Captured(Capture(title, page.href, Trim(JsWhitespace, Join(pieces, "\n")), allImages, TwitterFolder));
  }
}
