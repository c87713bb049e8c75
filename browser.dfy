/**
  * The browser facilities the extension calls into and that are not part of
  * this model: the WHATWG URL parser and serialiser, the HTML parser and the
  * Turndown converter. Each is a function-typed field, so that every
  * statement proved about the clipper holds whatever these do.
  */
module Browser {
  import opened Common

  /** A parsed URL, as far as the clipper looks inside one; `rest` stands for every other component. */
  datatype Url = Url(hostname: string, pathname: string, search: seq<(string, string)>, rest: string)

  /**
    * `new URL(input)` is `parse(input, None)` and `new URL(input, base)` is
    * `parse(input, Some(base))`; `None` stands for the `TypeError` the
    * constructor throws. `serialize` is `toString()`.
    */
  datatype UrlApi = UrlApi(parse: (string, Option<string>) -> Option<Url>, serialize: Url -> string)

  /** The message of the `TypeError` thrown by `new URL` on input it cannot parse. */
  const InvalidUrlMessage := "Failed to construct 'URL': Invalid URL"

  /** The attributes of an `<img>` element that the clipper reads; `None` is an absent attribute. */
  datatype ImgElement = ImgElement(
    src: Option<string>,
    dataSrc: Option<string>,
    dataOriginal: Option<string>,
    srcset: Option<string>,
    alt: Option<string>)

  /**
    * The HTML side: `imagesOf(html)` lists the `<img>` elements of a fragment
    * in the order Turndown visits them, and `turndown(html, reps)` is the
    * Markdown Turndown produces when its image rule returned `reps[k]` for
    * the k-th of them.
    */
  datatype HtmlApi = HtmlApi(imagesOf: string -> seq<ImgElement>, turndown: (string, seq<string>) -> string)

  function Without(ps: seq<(string, string)>, name: string): (r: seq<(string, string)>)
    ensures forall k :: 0 <= k < |r| ==> r[k].0 != name
  {
    if ps == [] then [] else (if ps[0].0 == name then [] else [ps[0]]) + Without(ps[1..], name)
  }

  /** How many pairs carry `name`. */
  function CountNamed(ps: seq<(string, string)>, name: string): nat
  {
    if ps == [] then 0 else (if ps[0].0 == name then 1 else 0) + CountNamed(ps[1..], name)
  }

  function SetFirst(ps: seq<(string, string)>, name: string, value: string): (r: seq<(string, string)>)
    requires CountNamed(ps, name) > 0
    ensures CountNamed(r, name) == 1 && (name, value) in r
    ensures Without(r, name) == Without(ps, name)
  {
    if ps[0].0 == name then
      WithoutNone(Without(ps[1..], name), name);
      [(name, value)] + Without(ps[1..], name)
    else
      [ps[0]] + SetFirst(ps[1..], name, value)
  }

  lemma WithoutNone(ps: seq<(string, string)>, name: string)
    requires forall k :: 0 <= k < |ps| ==> ps[k].0 != name
    ensures CountNamed(ps, name) == 0 && Without(ps, name) == ps
  {
  }

  lemma CountNamedAppend(ps: seq<(string, string)>, p: (string, string), name: string)
    ensures CountNamed(ps + [p], name) == CountNamed(ps, name) + (if p.0 == name then 1 else 0)
    ensures Without(ps + [p], name) == Without(ps, name) + (if p.0 == name then [] else [p])
  {
    if ps != [] {
      assert (ps + [p])[1..] == ps[1..] + [p];
      CountNamedAppend(ps[1..], p, name);
    }
  }

  lemma {:induction false} CountZero(ps: seq<(string, string)>, name: string)
    requires CountNamed(ps, name) == 0
    ensures forall k :: 0 <= k < |ps| ==> ps[k].0 != name
  {
    if ps != [] {
      CountZero(ps[1..], name);
      assert forall k :: 1 <= k < |ps| ==> ps[k] == ps[1..][k - 1];
    }
  }

  /** Setting the pair a sequence already holds as its only pair of that name changes nothing. */
  lemma {:induction false} SetFirstFixed(ps: seq<(string, string)>, name: string, value: string)
    requires CountNamed(ps, name) == 1 && (name, value) in ps
    ensures SetFirst(ps, name, value) == ps
  {
    if ps[0].0 == name {
      CountZero(ps[1..], name);
      WithoutNone(ps[1..], name);
      assert (name, value) !in ps[1..];
      assert ps == [ps[0]] + ps[1..];
    } else {
      assert (name, value) in ps[1..];
      SetFirstFixed(ps[1..], name, value);
      assert ps == [ps[0]] + ps[1..];
    }
  }

  /**
    * `URLSearchParams.set(name, value)`: the first pair named `name` gets the
    * value and later ones are removed; with no such pair, one is appended.
    * Afterwards exactly one pair has the name, it holds the value, and every
    * other pair is kept in its order.
    */
  function SetSearchParam(ps: seq<(string, string)>, name: string, value: string): (r: seq<(string, string)>)
    ensures CountNamed(r, name) == 1 && (name, value) in r
    ensures Without(r, name) == Without(ps, name)
  {
    if CountNamed(ps, name) > 0 then SetFirst(ps, name, value)
    else
      CountNamedAppend(ps, (name, value), name);
      assert ps + [(name, value)] == (ps + [(name, value)])[..|ps|] + [(name, value)];
      ps + [(name, value)]
  }

  /** Setting the same parameter twice is setting it once. */
  lemma SetSearchParamIdempotent(ps: seq<(string, string)>, name: string, value: string)
    ensures SetSearchParam(SetSearchParam(ps, name, value), name, value) == SetSearchParam(ps, name, value)
  {
    SetFirstFixed(SetSearchParam(ps, name, value), name, value);
  }
}
