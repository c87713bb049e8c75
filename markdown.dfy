/**
  * HTML to Markdown with image placeholders (extension/src/markdown.ts):
  * choosing an image URL from an `<img>` element (srcset ranking, then the
  * attribute priority), and numbering the `[[[IMG:n]]]` placeholders that
  * stand in for the images. Turndown itself and the URL parser are the
  * oracles of `Browser`.
  */
module Markdown {
  import opened Common
  import opened Text
  import opened Browser

  // ---------------------------------------------------------------------
  // srcset candidates

  /** One `url descriptor` entry of a srcset; a missing descriptor is empty. */
  datatype Candidate = Candidate(url: string, desc: string)

  /** A candidate with its score. */
  datatype Ranked = Ranked(url: string, score: nat)

  /**
    * The pieces of a trimmed part: the URL is its first word, the descriptor
    * the word after the whitespace that follows, or empty when the URL is
    * all of the part.
    */
  function ParseCandidate(part: string): (c: Option<Candidate>)
    ensures c.None? <==> Trim(JsWhitespace, part) == ""
    ensures c.Some? ==> c.value.url != "" && FirstRun(JsWhitespace, Trim(JsWhitespace, part), c.value.url)
    ensures c.Some? && |c.value.url| == |Trim(JsWhitespace, part)| ==> c.value.desc == ""
    ensures c.Some? && |c.value.url| < |Trim(JsWhitespace, part)| ==>
      var t := Trim(JsWhitespace, part);
      FirstRun(JsWhitespace, TrimStart(JsWhitespace, t[|c.value.url|..]), c.value.desc)
  {
    var t := Trim(JsWhitespace, part);
    var pieces := SplitOnSpaceRuns(t);
    TrimEnds(JsWhitespace, part);
    if pieces[0] == "" then None
    else Some(Candidate(pieces[0], if |pieces| > 1 then pieces[1] else ""))
  }

  /** The candidates of a srcset, in order: the comma-separated parts that are not blank. */
  function Candidates(parts: seq<string>): (cs: seq<Candidate>)
    ensures |cs| <= |parts|
    ensures forall k :: 0 <= k < |cs| ==> cs[k].url != ""
    ensures cs == [] <==> forall k :: 0 <= k < |parts| ==> Trim(JsWhitespace, parts[k]) == ""
  {
    if parts == [] then []
    else
      var rest := Candidates(parts[1..]);
      assert forall k :: 1 <= k < |parts| ==> parts[k] == parts[1..][k - 1];
      match ParseCandidate(parts[0])
      case None => rest
      case Some(c) => [c] + rest
  }

  /** A single part gives its own candidate, or none when it is blank. */
  lemma CandidatesOfPart(part: string)
    ensures Candidates([part]) == if ParseCandidate(part).Some? then [ParseCandidate(part).value] else []
  {
    assert [part][1..] == [];
  }

  /** The candidates of consecutive parts follow each other in the same order. */
  lemma {:induction false} CandidatesAppend(a: seq<string>, b: seq<string>)
    ensures Candidates(a + b) == Candidates(a) + Candidates(b)
    decreases |a|
  {
    if a == [] {
      assert a + b == b;
    } else {
      assert (a + b)[0] == a[0] && (a + b)[1..] == a[1..] + b;
      CandidatesAppend(a[1..], b);
    }
  }

  /**
    * `Number(s) || 0` for the digits before a `w` or `x`: the decimal value of
    * a numeral, and 0 for the empty string and for text that is not a numeral.
    */
  function NumberOrZero(s: string): nat
  {
    match ParseNat(s)
    case Some(n) => n
    case None => 0
  }

  /** The score of a descriptor, once trimmed: the width for `w`, the density times 10000 for `x`, otherwise 1. */
  function DescriptorScore(desc: string): (score: nat)
    ensures var d := Trim(JsWhitespace, desc);
      (EndsWith(d, "w") ==> score == NumberOrZero(d[..|d| - 1])) &&
      (!EndsWith(d, "w") && EndsWith(d, "x") ==> score == NumberOrZero(d[..|d| - 1]) * 10000) &&
      (!EndsWith(d, "w") && !EndsWith(d, "x") ==> score == 1)
  {
    var d := Trim(JsWhitespace, desc);
    if EndsWith(d, "w") then NumberOrZero(d[..|d| - 1])
    else if EndsWith(d, "x") then NumberOrZero(d[..|d| - 1]) * 10000
    else 1
  }

  function Rank(cs: seq<Candidate>): (rs: seq<Ranked>)
    ensures |rs| == |cs|
    ensures forall k :: 0 <= k < |cs| ==> rs[k] == Ranked(cs[k].url, DescriptorScore(cs[k].desc))
  {
    if cs == [] then [] else [Ranked(cs[0].url, DescriptorScore(cs[0].desc))] + Rank(cs[1..])
  }

  // ---------------------------------------------------------------------
  // The stable sort by descending score

  predicate SortedDesc(rs: seq<Ranked>) {
    forall i, j :: 0 <= i < j < |rs| ==> rs[i].score >= rs[j].score
  }

  /** Puts `x` before the first entry that does not outscore it. */
  function InsertDesc(x: Ranked, rs: seq<Ranked>): seq<Ranked>
  {
    if rs == [] || rs[0].score <= x.score then [x] + rs else [rs[0]] + InsertDesc(x, rs[1..])
  }

  /**
    * `Array.prototype.sort` with the comparator `b.score - a.score`. The sort
    * is stable, so among equal scores the input order is kept; inserting each
    * entry in front of the equal ones already placed behind it gives exactly
    * that order.
    */
  function SortDesc(rs: seq<Ranked>): seq<Ranked>
  {
    if rs == [] then [] else InsertDesc(rs[0], SortDesc(rs[1..]))
  }

  lemma {:induction false} InsertDescPerm(x: Ranked, rs: seq<Ranked>)
    ensures multiset(InsertDesc(x, rs)) == multiset([x] + rs) && |InsertDesc(x, rs)| == |rs| + 1
  {
    if rs != [] && rs[0].score > x.score {
      InsertDescPerm(x, rs[1..]);
      assert rs == [rs[0]] + rs[1..];
    }
  }

  lemma {:induction false} InsertDescSorted(x: Ranked, rs: seq<Ranked>)
    requires SortedDesc(rs)
    ensures SortedDesc(InsertDesc(x, rs))
  {
    if rs != [] && rs[0].score > x.score {
      InsertDescSorted(x, rs[1..]);
      InsertDescPerm(x, rs[1..]);
      var tail := InsertDesc(x, rs[1..]);
      forall j | 0 <= j < |tail| ensures rs[0].score >= tail[j].score {
        assert tail[j] in multiset([x] + rs[1..]);
        assert tail[j] == x || tail[j] in rs[1..];
      }
    }
  }

  lemma InsertDescHead(x: Ranked, rs: seq<Ranked>)
    ensures InsertDesc(x, rs)[0] == if rs == [] || rs[0].score <= x.score then x else rs[0]
  {
  }

  /** The sort returns its input reordered, with scores not increasing. */
  lemma {:induction false} SortDescFacts(rs: seq<Ranked>)
    ensures SortedDesc(SortDesc(rs)) && multiset(SortDesc(rs)) == multiset(rs) && |SortDesc(rs)| == |rs|
  {
    if rs != [] {
      SortDescFacts(rs[1..]);
      InsertDescPerm(rs[0], SortDesc(rs[1..]));
      InsertDescSorted(rs[0], SortDesc(rs[1..]));
      assert rs == [rs[0]] + rs[1..];
    }
  }

  /** The position of the first entry with the highest score. */
  function FirstMax(rs: seq<Ranked>): (i: nat)
    requires rs != []
    ensures i < |rs|
    ensures forall j :: 0 <= j < |rs| ==> rs[j].score <= rs[i].score
    ensures forall j :: 0 <= j < i ==> rs[j].score < rs[i].score
  {
    if |rs| == 1 then 0
    else
      var k := 1 + FirstMax(rs[1..]);
      if rs[k].score > rs[0].score then k else 0
  }

  /** After the stable sort, the first entry is the first of the highest-scoring ones. */
  lemma {:induction false} SortDescHead(rs: seq<Ranked>)
    requires rs != []
    ensures SortDesc(rs)[0] == rs[FirstMax(rs)]
  {
    SortDescFacts(rs[1..]);
    InsertDescHead(rs[0], SortDesc(rs[1..]));
    if |rs| > 1 {
      SortDescHead(rs[1..]);
    }
  }

  /**
    * `pickBestSrcFromSrcset`: the URL of the best candidate after the stable
    * sort by descending score, or `None` when no part names a URL.
    */
  function PickBestSrcFromSrcset(srcset: string): (r: Option<string>)
  {
    var cs := Candidates(Split(srcset, ','));
    if cs == [] then None else Some(SortDesc(Rank(cs))[0].url)
  }

  /** Candidate `i` scores highest, and every candidate before it scores strictly less. */
  predicate FirstBest(cs: seq<Candidate>, i: int)
  {
    0 <= i < |cs| &&
    (forall j :: 0 <= j < |cs| ==> DescriptorScore(cs[j].desc) <= DescriptorScore(cs[i].desc)) &&
    (forall j :: 0 <= j < i ==> DescriptorScore(cs[j].desc) < DescriptorScore(cs[i].desc))
  }

  /** No URL exactly when every comma-separated part is blank. */
  lemma PickBestNone(srcset: string)
    ensures var parts := Split(srcset, ',');
      PickBestSrcFromSrcset(srcset).None? <==> forall k :: 0 <= k < |parts| ==> Trim(JsWhitespace, parts[k]) == ""
  {
  }

  /**
    * The URL returned belongs to a candidate whose score no other candidate
    * beats, and every candidate before it scores strictly less.
    */
  lemma PickBestIsFirstMax(srcset: string)
    requires PickBestSrcFromSrcset(srcset).Some?
    ensures exists i ::
              FirstBest(Candidates(Split(srcset, ',')), i) &&
              Candidates(Split(srcset, ','))[i].url == PickBestSrcFromSrcset(srcset).value
  {
    var cs := Candidates(Split(srcset, ','));
    var rs := Rank(cs);
    SortDescHead(rs);
    SortDescFacts(rs);
    var i := FirstMax(rs);
    assert PickBestSrcFromSrcset(srcset).value == rs[i].url == cs[i].url;
    forall j | 0 <= j < |cs|
      ensures DescriptorScore(cs[j].desc) <= DescriptorScore(cs[i].desc)
      ensures j < i ==> DescriptorScore(cs[j].desc) < DescriptorScore(cs[i].desc)
    {
      assert rs[j].score == DescriptorScore(cs[j].desc);
    }
    assert FirstBest(cs, i);
  }

  /** The picked URL is never empty. */
  lemma PickBestNonEmpty(srcset: string)
    requires PickBestSrcFromSrcset(srcset).Some?
    ensures PickBestSrcFromSrcset(srcset).value != ""
  {
    PickBestIsFirstMax(srcset);
  }

  /** A width of 20001 outranks a density of 2: density does not always win. */
  lemma WidthCanOutrankDensity(w: string, x: string)
    requires w == "20001w" && x == "2x"
    ensures DescriptorScore(w) > DescriptorScore(x)
  {
    LetterNotJsSpace(w[0]);
    LetterNotJsSpace(w[|w| - 1]);
    TrimOfTrimmed(JsWhitespace, w);
    LetterNotJsSpace(x[0]);
    LetterNotJsSpace(x[|x| - 1]);
    TrimOfTrimmed(JsWhitespace, x);
    assert w[..|w| - 1] == "20001";
    assert x[..|x| - 1] == "2";
    assert !EndsWith(x, "w");
    assert DigitsValue("2") == 2;
    assert DigitsValue("20001") == 20001 by {
      assert "20001"[..4] == "2000" && "2000"[..3] == "200" && "200"[..2] == "20" && "20"[..1] == "2";
    }
  }

  // ---------------------------------------------------------------------
  // Choosing an image URL

  /** `toAbsoluteUrl`: the URL resolved against the base, or the raw text when resolution throws. */
  function ToAbsoluteUrl(rawUrl: string, baseUrl: string, api: UrlApi): (r: string)
    ensures api.parse(rawUrl, Some(baseUrl)).None? ==> r == rawUrl
    ensures api.parse(rawUrl, Some(baseUrl)).Some? ==> r == api.serialize(api.parse(rawUrl, Some(baseUrl)).value)
  {
    match api.parse(rawUrl, Some(baseUrl))
    case None => rawUrl
    case Some(u) => api.serialize(u)
  }

  /** An attribute's trimmed value, or the empty string when it is absent. */
  function TrimmedAttr(a: Option<string>): string
  {
    if a.Some? then Trim(JsWhitespace, a.value) else ""
  }

  /** The first non-empty string of a list, or the empty string: the reference meaning of a chain of `||`. */
  function FirstNonEmpty(options: seq<string>): string
  {
    if options == [] then "" else if options[0] != "" then options[0] else FirstNonEmpty(options[1..])
  }

  /** A non-empty result is one of the options, and every option before it is empty; otherwise all are empty. */
  lemma {:induction false} FirstNonEmptyIsFirst(options: seq<string>) returns (k: nat)
    ensures k <= |options| && forall j :: 0 <= j < k ==> options[j] == ""
    ensures k < |options| ==> options[k] == FirstNonEmpty(options) != ""
    ensures k == |options| ==> FirstNonEmpty(options) == ""
  {
    if options == [] {
      k := 0;
    } else if options[0] != "" {
      k := 0;
    } else {
      var k' := FirstNonEmptyIsFirst(options[1..]);
      k := k' + 1;
    }
  }

  /** The srcset winner, or the empty string when the srcset is blank or names no URL. */
  function BestFromSrcset(img: ImgElement): string
  {
    var srcset := TrimmedAttr(img.srcset);
    var best := if srcset != "" then PickBestSrcFromSrcset(srcset) else None;
    if best.Some? then best.value else ""
  }

  /** The raw URL an image element names, by priority: srcset winner, data-original, data-src, src. */
  function ChosenUrl(img: ImgElement): string
  {
    var best := BestFromSrcset(img);
    if best != "" then best
    else if TrimmedAttr(img.dataOriginal) != "" then TrimmedAttr(img.dataOriginal)
    else if TrimmedAttr(img.dataSrc) != "" then TrimmedAttr(img.dataSrc)
    else TrimmedAttr(img.src)
  }

  /** The chosen URL is the first non-empty of the four sources in priority order. */
  lemma ChosenIsFirstNonEmpty(img: ImgElement)
    ensures ChosenUrl(img) ==
      FirstNonEmpty([BestFromSrcset(img), TrimmedAttr(img.dataOriginal), TrimmedAttr(img.dataSrc), TrimmedAttr(img.src)])
  {
    var options := [BestFromSrcset(img), TrimmedAttr(img.dataOriginal), TrimmedAttr(img.dataSrc), TrimmedAttr(img.src)];
    assert options[1..][1..][1..][1..] == [];
    assert FirstNonEmpty(options[1..][1..][1..]) == options[3];
    assert FirstNonEmpty(options[1..][1..]) == if options[2] != "" then options[2] else options[3];
  }

  /** `resolveImageUrl`: no URL when every source is empty, otherwise the chosen one made absolute. */
  function ResolveImageUrl(img: ImgElement, baseUrl: string, api: UrlApi): (r: Option<string>)
    ensures r.None? <==>
      BestFromSrcset(img) == "" && TrimmedAttr(img.dataOriginal) == "" && TrimmedAttr(img.dataSrc) == "" && TrimmedAttr(img.src) == ""
    ensures r.Some? ==> r.value == ToAbsoluteUrl(ChosenUrl(img), baseUrl, api)
  {
    var chosen := ChosenUrl(img);
    if chosen == "" then None else Some(ToAbsoluteUrl(chosen, baseUrl, api))
  }

  // ---------------------------------------------------------------------
  // Image placeholders

  /** An image the Markdown refers to through its placeholder; `alt` is the raw attribute. */
  datatype ImageRef = ImageRef(token: string, url: string, alt: Option<string>)

  /** The placeholder line for a token. */
  function Placeholder(token: string): string
  {
    "\n[[[IMG:" + token + "]]]\n"
  }

  /** What the image rule learns from one element: its resolved URL and its raw `alt` attribute. */
  datatype Found = Found(url: Option<string>, alt: Option<string>)

  /** The rule emits a placeholder only for a URL that is present and not empty. */
  predicate Hit(f: Found)
  {
    f.url.Some? && f.url.value != ""
  }

  /** What the image rule learns from each element, in visiting order. */
  function Survey(imgs: seq<ImgElement>, baseUrl: string, api: UrlApi): (found: seq<Found>)
    ensures |found| == |imgs|
    ensures forall k :: 0 <= k < |imgs| ==> found[k] == Found(ResolveImageUrl(imgs[k], baseUrl, api), imgs[k].alt)
  {
    seq(|imgs|, k requires 0 <= k < |imgs| => Found(ResolveImageUrl(imgs[k], baseUrl, api), imgs[k].alt))
  }

  /**
    * What the image rule returns for each element and the references it
    * records, numbering from `next`: an element without a URL is replaced by
    * nothing and uses no number.
    */
  function ImageTokens(found: seq<Found>, next: nat): (out: (seq<string>, seq<ImageRef>))
    decreases |found|
  {
    if found == [] then ([], [])
    else
      var rest := ImageTokens(found[1..], if Hit(found[0]) then next + 1 else next);
      if Hit(found[0]) then
        var token := NatToString(next);
        ([Placeholder(token)] + rest.0, [ImageRef(token, found[0].url.value, found[0].alt)] + rest.1)
      else ([""] + rest.0, rest.1)
  }

  /** How many of the elements get a placeholder. */
  function Resolvable(found: seq<Found>): nat
  {
    if found == [] then 0 else (if Hit(found[0]) then 1 else 0) + Resolvable(found[1..])
  }

  /**
    * One replacement per element; the references are numbered `next`,
    * `next + 1`, ... in visiting order, one per element with a URL, and carry
    * that URL and `alt`; each such element is replaced by the placeholder of
    * its reference, every other one by nothing.
    */
  lemma {:induction false} ImageTokensNumbering(found: seq<Found>, next: nat)
    ensures var out := ImageTokens(found, next);
      |out.0| == |found| && |out.1| == Resolvable(found) &&
      (forall k :: 0 <= k < |out.1| ==> out.1[k].token == NatToString(next + k)) &&
      (forall i :: 0 <= i < |found| ==>
        (!Hit(found[i]) <==> out.0[i] == "") &&
        (Hit(found[i]) ==>
          var k := Resolvable(found[..i]);
          k < |out.1| && out.0[i] == Placeholder(out.1[k].token) &&
          out.1[k].url == found[i].url.value && out.1[k].alt == found[i].alt))
    decreases |found|
  {
    if found != [] {
      var hit := Hit(found[0]);
      var next' := if hit then next + 1 else next;
      ImageTokensNumbering(found[1..], next');
      var out := ImageTokens(found, next);
      forall i | 0 <= i < |found|
        ensures (!Hit(found[i]) <==> out.0[i] == "")
        ensures Hit(found[i]) ==>
          var k := Resolvable(found[..i]);
          k < |out.1| && out.0[i] == Placeholder(out.1[k].token) &&
          out.1[k].url == found[i].url.value && out.1[k].alt == found[i].alt
      {
        if i == 0 {
          assert found[..0] == [];
        } else {
          assert found[..i][1..] == found[1..][..i - 1];
          assert found[1..][i - 1] == found[i];
        }
      }
    }
  }

  /** The tokens of one conversion are pairwise distinct. */
  lemma TokensDistinct(found: seq<Found>)
    ensures var refs := ImageTokens(found, 0).1;
      forall i, j :: 0 <= i < j < |refs| ==> refs[i].token != refs[j].token
  {
    ImageTokensNumbering(found, 0);
    var refs := ImageTokens(found, 0).1;
    forall i, j | 0 <= i < j < |refs| ensures refs[i].token != refs[j].token {
      if refs[i].token == refs[j].token {
        NatToStringInjective(i, j);
      }
    }
  }

  /** The Markdown and the image references of one conversion, as the method below computes them. */
  function ConvertHtml(html: string, baseUrl: string, htmlApi: HtmlApi, urlApi: UrlApi): (string, seq<ImageRef>)
  {
    var out := ImageTokens(Survey(htmlApi.imagesOf(html), baseUrl, urlApi), 0);
    (Trim(JsWhitespace, htmlApi.turndown(html, out.0)), out.1)
  }

  /** One more element taken off the front of the survey moves its output onto the accumulated lists. */
  lemma TokensAccumulate(reps: seq<string>, images: seq<ImageRef>, found: seq<Found>, next: nat)
    requires found != []
    ensures var h := Hit(found[0]);
      var next' := if h then next + 1 else next;
      var reps' := reps + [if h then Placeholder(NatToString(next)) else ""];
      var images' := images + (if h then [ImageRef(NatToString(next), found[0].url.value, found[0].alt)] else []);
      (reps + ImageTokens(found, next).0, images + ImageTokens(found, next).1)
        == (reps' + ImageTokens(found[1..], next').0, images' + ImageTokens(found[1..], next').1)
  {
    var h := Hit(found[0]);
    var rest := ImageTokens(found[1..], if h then next + 1 else next);
    if h {
      var token := NatToString(next);
      assert reps + ([Placeholder(token)] + rest.0) == (reps + [Placeholder(token)]) + rest.0;
      assert images + ([ImageRef(token, found[0].url.value, found[0].alt)] + rest.1)
        == (images + [ImageRef(token, found[0].url.value, found[0].alt)]) + rest.1;
    } else {
      assert reps + ([""] + rest.0) == (reps + [""]) + rest.0;
      assert images + [] == images;
    }
  }

  /**
    * `htmlToMarkdownWithImageTokens`: Turndown runs with the image rule, which
    * numbers the images that have a URL from 0 with a counter local to the
    * call; the Markdown is then trimmed.
    */
  method HtmlToMarkdownWithImageTokens(html: string, baseUrl: string, htmlApi: HtmlApi, urlApi: UrlApi)
    returns (markdown: string, images: seq<ImageRef>)
    ensures var out := ImageTokens(Survey(htmlApi.imagesOf(html), baseUrl, urlApi), 0);
      images == out.1 && markdown == Trim(JsWhitespace, htmlApi.turndown(html, out.0))
    ensures (markdown, images) == ConvertHtml(html, baseUrl, htmlApi, urlApi)
  {
    var imgs := htmlApi.imagesOf(html);
    ghost var found := Survey(imgs, baseUrl, urlApi);
    var reps: seq<string> := [];
    images := [];
    var imgCounter: nat := 0;
    var i := 0;
    assert found[i..] == found;
    assert reps + ImageTokens(found, 0).0 == ImageTokens(found, 0).0;
    assert images + ImageTokens(found, 0).1 == ImageTokens(found, 0).1;
    while i < |imgs|
      invariant 0 <= i <= |imgs|
      invariant ImageTokens(found, 0) ==
        (reps + ImageTokens(found[i..], imgCounter).0, images + ImageTokens(found[i..], imgCounter).1)
    {
      var url := ResolveImageUrl(imgs[i], baseUrl, urlApi);
      assert found[i..][0] == Found(url, imgs[i].alt);
      assert found[i..][1..] == found[i + 1..];
      assert Hit(found[i..][0]) <==> !(url.None? || url.value == "");
      TokensAccumulate(reps, images, found[i..], imgCounter);
      if url.None? || url.value == "" {
        reps := reps + [""];
      } else {
        var token := NatToString(imgCounter);
        images := images + [ImageRef(token, url.value, imgs[i].alt)];
        reps := reps + [Placeholder(token)];
        imgCounter := imgCounter + 1;
      }
      i := i + 1;
    }
    assert found[i..] == [];
    assert reps + [] == reps && images + [] == images;
    markdown := Trim(JsWhitespace, htmlApi.turndown(html, reps));
  }
}
