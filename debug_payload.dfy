/**
 * The debug tool that renders an exported debug payload as the HTML the Python
 * host would send to Notes: picking the createNote fields out of the JSON,
 * collecting the image jobs, replacing the placeholders (through the cache,
 * or by the raw URLs when downloads are off) and wrapping the fragment in a
 * fixed document. Reading and writing files is left out.
 */
module DebugPayload {
  import opened Common
  import opened Text
  import opened HtmlEscape
  import NotesBridgePy

  /** A parsed JSON value; numbers are integers here. */
  datatype Json =
    | Null
    | Bool(b: bool)
    | Num(n: int)
    | Str(s: string)
    | Arr(items: seq<Json>)
    | Obj(fields: map<string, Json>)

  /** Python truthiness of the decoded value. */
  predicate Truthy(v: Json) {
    match v
    case Null => false
    case Bool(b) => b
    case Num(n) => n != 0
    case Str(s) => s != []
    case Arr(items) => items != []
    case Obj(fields) => fields != map[]
  }

  /** `d.get(key)`: a missing key reads as `None`, which behaves like JSON null. */
  function Get(fields: map<string, Json>, key: string): Json {
    if key in fields then fields[key] else Null
  }

  /** `v or default`: a truthy value is kept as it is, any other gives way to the default. */
  function Or(v: Json, default: Json): (r: Json)
    ensures Truthy(r) || r == default
    ensures Truthy(v) ==> r == v
    ensures !Truthy(v) ==> r == default
  {
    if Truthy(v) then v else default
  }

  /** The createNote fields as the tool reads them. */
  datatype Shape = Shape(title: Json, sourceUrl: Json, markdown: Json, images: Json)

  function ShapeOf(fields: map<string, Json>): Shape {
    Shape(
      Or(Get(fields, "title"), Str("Untitled")),
      Or(Get(fields, "sourceUrl"), Str("")),
      Or(Get(fields, "markdown"), Str("")),
      Or(Get(fields, "images"), Arr([])))
  }

  /** Whether the object is an Options debug export whose extraction succeeded: `extracted` an object with `ok` exactly `true`. */
  predicate IsDebugExport(obj: map<string, Json>) {
    Get(obj, "extracted").Obj? && Get(Get(obj, "extracted").fields, "ok") == Bool(true)
  }

  /** `_extract_create_note_shape`. */
  function ExtractCreateNoteShape(obj: map<string, Json>): Shape {
    if IsDebugExport(obj) then ShapeOf(Get(obj, "extracted").fields) else ShapeOf(obj)
  }

  /**
   * Which object the fields come from, and their defaults: a debug export
   * gives the extraction's fields, anything else its own top-level fields;
   * each field is kept when truthy and replaced by its default otherwise.
   */
  lemma ShapeSelection(obj: map<string, Json>)
    ensures var src := if IsDebugExport(obj) then obj["extracted"].fields else obj;
      var shape := ExtractCreateNoteShape(obj);
      && (Truthy(Get(src, "title")) ==> shape.title == src["title"])
      && (!Truthy(Get(src, "title")) ==> shape.title == Str("Untitled"))
      && (Truthy(Get(src, "sourceUrl")) ==> shape.sourceUrl == src["sourceUrl"])
      && (!Truthy(Get(src, "sourceUrl")) ==> shape.sourceUrl == Str(""))
      && (Truthy(Get(src, "markdown")) ==> shape.markdown == src["markdown"])
      && (!Truthy(Get(src, "markdown")) ==> shape.markdown == Str(""))
      && (Truthy(Get(src, "images")) ==> shape.images == src["images"])
      && (!Truthy(Get(src, "images")) ==> shape.images == Arr([]))
  {
  }

  /** Only the boolean `true` marks a successful extraction: a truthy `ok` of another type does not. */
  lemma OkMustBeTrue(obj: map<string, Json>, extracted: map<string, Json>, ok: Json)
    requires "extracted" in obj && obj["extracted"] == Obj(extracted) && "ok" in extracted && extracted["ok"] == ok
    requires ok != Bool(true)
    ensures ExtractCreateNoteShape(obj) == ShapeOf(obj)
  {
  }

  // ---------------------------------------------------------------------
  // str() of a JSON value

  function IntToString(n: int): (r: string)
    ensures r != [] && (n < 0 <==> r[0] == '-')
  {
    if n < 0 then "-" + NatToString(-n) else NatToString(n)
  }

  /**
   * `str(v)`: strings as they are, `None`, `True`, `False`, integers in
   * decimal; `repr` stands for the text Python gives lists and dicts.
   */
  function PyStr(v: Json, repr: Json -> string): string {
    match v
    case Null => "None"
    case Bool(b) => if b then "True" else "False"
    case Num(n) => IntToString(n)
    case Str(s) => s
    case _ => repr(v)
  }

  /** A string value is written as itself; anything else as non-empty text. */
  lemma PyStrCases(v: Json, repr: Json -> string)
    ensures v.Str? ==> PyStr(v, repr) == v.s
    ensures v.Null? || v.Bool? || v.Num? ==> PyStr(v, repr) != []
  {
  }

  // ---------------------------------------------------------------------
  // Image jobs

  /** An item's job; an item that is not an object raises on `.get` and is skipped. */
  function JobOf(item: Json, repr: Json -> string): Option<NotesBridgePy.ImageJob> {
    if item.Obj? then
      var alt := Get(item.fields, "alt");
      Some(NotesBridgePy.ImageJob(PyStr(Get(item.fields, "token"), repr), PyStr(Get(item.fields, "url"), repr),
        if alt.Str? then Some(alt.s) else None))
    else None
  }

  /** The jobs of the first `n` items, in order. */
  function JobsOf(items: seq<Json>, n: nat, repr: Json -> string): seq<NotesBridgePy.ImageJob>
    requires n <= |items|
  {
    if n == 0 then []
    else
      var job := JobOf(items[n - 1], repr);
      JobsOf(items, n - 1, repr) + (if job.Some? then [job.value] else [])
  }

  /**
   * Iterating the `images` value: a list gives its items, a string its
   * characters and an object its keys (neither of which is an object, so
   * they are all skipped); a truthy number or boolean is not iterable and
   * stops the tool.
   */
  function ImageItems(images: Json): Result<seq<Json>, string> {
    match images
    case Arr(items) => Success(items)
    case Str(_) => Success([])
    case Obj(_) => Success([])
    case Null => Success([])
    case _ => if Truthy(images) then Failure("object is not iterable") else Success([])
  }

  /** The loop that builds the job list, skipping items that are not objects. */
  method CollectImageJobs(items: seq<Json>, repr: Json -> string) returns (images: seq<NotesBridgePy.ImageJob>)
    ensures images == JobsOf(items, |items|, repr)
  {
    images := [];
    for i := 0 to |items|
      invariant images == JobsOf(items, i, repr)
    {
      var item := items[i];
      if !item.Obj? {
        continue;
      }
      var alt := Get(item.fields, "alt");
      images := images + [NotesBridgePy.ImageJob(PyStr(Get(item.fields, "token"), repr), PyStr(Get(item.fields, "url"), repr),
        if alt.Str? then Some(alt.s) else None)];
    }
  }

  /** Every object item gives exactly one job, in order, and nothing else does. */
  lemma {:induction false} JobsCount(items: seq<Json>, n: nat, repr: Json -> string)
    requires n <= |items|
    ensures |JobsOf(items, n, repr)| == |Filter(items[..n], (v: Json) => v.Obj?)|
  {
    if n > 0 {
      JobsCount(items, n - 1, repr);
      assert items[..n] == items[..n - 1] + [items[n - 1]];
      FilterAppend(items[..n - 1], [items[n - 1]], (v: Json) => v.Obj?);
    }
  }

  // ---------------------------------------------------------------------
  // Replacing placeholders without downloading

  /** The text after the first `n` placeholders have been replaced by their images' raw URLs. */
  function UrlsReplaced(markdown: string, images: seq<NotesBridgePy.ImageJob>, n: nat): string
    requires n <= |images|
  {
    if n == 0 then markdown
    else ReplaceAll(UrlsReplaced(markdown, images, n - 1), NotesBridgePy.PlaceholderText(images[n - 1].token), images[n - 1].url)
  }

  /** The `--no-download-images` loop. */
  method ReplaceTokensWithUrls(markdown: string, images: seq<NotesBridgePy.ImageJob>) returns (out: string)
    ensures out == UrlsReplaced(markdown, images, |images|)
  {
    out := markdown;
    for i := 0 to |images|
      invariant out == UrlsReplaced(markdown, images, i)
    {
      out := ReplaceAll(out, "[[[IMG:" + images[i].token + "]]]", images[i].url);
    }
  }

  /** Offline replacement is the host's replacement when every download fails. */
  lemma {:induction false} OfflineIsFailedDownloads(markdown: string, images: seq<NotesBridgePy.ImageJob>, n: nat,
                                                   sourceUrl: Option<string>, cache: (nat, string, Option<string>) -> Result<string, string>)
    requires n <= |images|
    requires forall k: nat, u: string, r: Option<string> :: cache(k, u, r).Failure?
    ensures UrlsReplaced(markdown, images, n) == NotesBridgePy.TokensReplaced(markdown, images, n, sourceUrl, cache)
  {
    if n > 0 {
      OfflineIsFailedDownloads(markdown, images, n - 1, sourceUrl, cache);
    }
  }

  // ---------------------------------------------------------------------
  // The preview document

  /** The fixed lines around the fragment, with the title escaped. */
  function Document(title: string, fragment: string): string {
    Join([
      "<!doctype html>",
      "<html>",
      "<head>",
      "  <meta charset=\"utf-8\">",
      "  <title>" + NotesBridgePy.EscapeHtml(title) + "</title>",
      "</head>",
      "<body>",
      fragment,
      "</body>",
      "</html>"
    ], "\n")
  }

  /** The lines before the title line, each followed by its line break. */
  const DocumentHead := "<!doctype html>" + "\n" + "<html>" + "\n" + "<head>" + "\n" + "  <meta charset=\"utf-8\">" + "\n"

  function TitleLine(title: string): string {
    "  <title>" + Escaped(title) + "</title>"
  }

  /** The lines after the title line, with the fragment as the body. */
  function BodyLines(fragment: string): string {
    "</head>" + "\n" + "<body>" + "\n" + fragment + "\n" + "</body>" + "\n" + "</html>"
  }

  lemma JoinHead(lines: seq<string>)
    requires |lines| >= 2
    ensures Join(lines, "\n") == lines[0] + "\n" + Join(lines[1..], "\n")
  {
    JoinCons(lines[0], lines[1..], "\n");
    assert [lines[0]] + lines[1..] == lines;
  }

  lemma JoinFour(a: string, b: string, c: string, d: string, rest: seq<string>)
    requires rest != []
    ensures Join([a, b, c, d] + rest, "\n") == a + "\n" + b + "\n" + c + "\n" + d + "\n" + Join(rest, "\n")
  {
    var lines := [a, b, c, d] + rest;
    JoinHead(lines);
    assert lines[1..] == [b, c, d] + rest;
    JoinHead(lines[1..]);
    assert lines[2..] == [c, d] + rest;
    JoinHead(lines[2..]);
    assert lines[3..] == [d] + rest;
    JoinHead(lines[3..]);
    assert lines[4..] == rest;
  }

  /**
   * The document is the title line and the fragment between fixed lines, and
   * the title inside it can neither open nor close a tag and decodes back to
   * the original title.
   */
  lemma DocumentLayout(title: string, fragment: string)
    ensures Document(title, fragment) == DocumentHead + TitleLine(title) + "\n" + BodyLines(fragment)
    ensures '<' !in Escaped(title) && '>' !in Escaped(title) && Unescape(Escaped(title)) == title
  {
    var t := TitleLine(title);
    var tail := ["</head>", "<body>", fragment, "</body>", "</html>"];
    var head := ["<!doctype html>", "<html>", "<head>", "  <meta charset=\"utf-8\">"];
    var lines := ["<!doctype html>", "<html>", "<head>", "  <meta charset=\"utf-8\">", t,
      "</head>", "<body>", fragment, "</body>", "</html>"];
    assert "  <title>" + NotesBridgePy.EscapeHtml(title) + "</title>" == t;
    assert Document(title, fragment) == Join(lines, "\n");
    assert lines == head + ([t] + tail);
    JoinFour("<!doctype html>", "<html>", "<head>", "  <meta charset=\"utf-8\">", [t] + tail);
    JoinHead([t] + tail);
    assert ([t] + tail)[1..] == tail;
    assert tail == ["</head>", "<body>", fragment, "</body>"] + ["</html>"];
    JoinFour("</head>", "<body>", fragment, "</body>", ["</html>"]);
    assert Join(["</html>"], "\n") == "</html>";
    var j := Join(tail, "\n");
    assert j == BodyLines(fragment);
    assert Document(title, fragment) == DocumentHead + (t + "\n" + j);
    EscapedHasNoMarkup(title);
    UnescapeEscaped(title);
  }

  // ---------------------------------------------------------------------
  // main

  /** What the tool writes, or the error that stops it. */
  function Preview(obj: map<string, Json>, downloadImages: bool, repr: Json -> string,
                   cache: (nat, string, Option<string>) -> Result<string, string>): Result<string, string>
  {
    var shape := ExtractCreateNoteShape(obj);
    var title := PyStr(Or(shape.title, Str("Untitled")), repr);
    var sourceUrl := PyStr(Or(shape.sourceUrl, Str("")), repr);
    var markdown := Trim(PyWhitespace, PyStr(Or(shape.markdown, Str("")), repr));
    match ImageItems(Or(shape.images, Arr([])))
    case Failure(e) => Failure(e)
    case Success(items) =>
      var images := JobsOf(items, |items|, repr);
      var replaced :=
        if images == [] then markdown
        else if downloadImages then NotesBridgePy.TokensReplaced(markdown, images, |images|, Some(sourceUrl), cache)
        else UrlsReplaced(markdown, images, |images|);
      Success(Document(title, NotesBridgePy.NotesHtml(replaced)))
  }

  /** `main` from the parsed payload to the document text. */
  method RenderDebugPayload(obj: map<string, Json>, downloadImages: bool, repr: Json -> string,
                            cache: (nat, string, Option<string>) -> Result<string, string>)
    returns (r: Result<string, string>)
    ensures r == Preview(obj, downloadImages, repr, cache)
  {
    var payload := ExtractCreateNoteShape(obj);
    var title := PyStr(Or(payload.title, Str("Untitled")), repr);
    var sourceUrl := PyStr(Or(payload.sourceUrl, Str("")), repr);
    var markdown := Trim(PyWhitespace, PyStr(Or(payload.markdown, Str("")), repr));
    var imagesRaw := ImageItems(Or(payload.images, Arr([])));
    if imagesRaw.Failure? {
      return Failure(imagesRaw.error);
    }
    var images := CollectImageJobs(imagesRaw.value, repr);
    if images != [] && downloadImages {
      markdown := NotesBridgePy.ReplaceImageTokens(markdown, images, Some(sourceUrl), cache);
    } else if images != [] && !downloadImages {
      markdown := ReplaceTokensWithUrls(markdown, images);
    }
    var fragment := NotesBridgePy.MarkdownWithDataImagesToNotesHtml(markdown);
    r := Success(Document(title, fragment));
  }

  /** Without downloads the cache is never consulted, and the result is what failing downloads would give. */
  lemma OfflinePreview(obj: map<string, Json>, repr: Json -> string,
                       cache: (nat, string, Option<string>) -> Result<string, string>,
                       failing: (nat, string, Option<string>) -> Result<string, string>)
    requires forall k: nat, u: string, r: Option<string> :: failing(k, u, r).Failure?
    ensures Preview(obj, false, repr, cache) == Preview(obj, true, repr, failing)
  {
    var shape := ExtractCreateNoteShape(obj);
    var sourceUrl := PyStr(Or(shape.sourceUrl, Str("")), repr);
    var markdown := Trim(PyWhitespace, PyStr(Or(shape.markdown, Str("")), repr));
    var itemsR := ImageItems(Or(shape.images, Arr([])));
    if itemsR.Success? {
      var images := JobsOf(itemsR.value, |itemsR.value|, repr);
      OfflineIsFailedDownloads(markdown, images, |images|, Some(sourceUrl), failing);
    }
  }

  /** Only a truthy number or boolean as the image list stops the tool; any other payload renders. */
  lemma PreviewFailsOnlyOnScalarImages(obj: map<string, Json>, downloadImages: bool, repr: Json -> string,
                                       cache: (nat, string, Option<string>) -> Result<string, string>)
    ensures Preview(obj, downloadImages, repr, cache).Failure? <==>
      var images := ExtractCreateNoteShape(obj).images;
      (images.Num? || images.Bool?) && Truthy(images)
  {
  }
}
