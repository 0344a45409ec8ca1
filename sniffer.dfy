/** The response listener that `scrape_single_url` attaches while a post or reel loads: every
    JSON response from the site is searched for a username, and the first one found is kept
    in `captured_info`. */
module Sniffer {
  import opened Wrappers
  import opened Text
  import opened JsonSearch

  /** A network response as the listener sees it: its URL, its `content-type` header (empty
      when the header is absent) and its body decoded as JSON (`None` when `response.json()`
      raises). */
  datatype Response = Response(url: string, contentType: string, body: Option<Json>)

  /** The listener reads the body only of JSON responses from the site. */
  predicate Inspected(r: Response) {
    Contains(r.url, "instagram.com") && Contains(r.contentType, "json")
  }

  /** What the listener finds in one response (`None`, i.e. `JNull`, when it finds nothing). */
  function Found(r: Response): Json {
    if Inspected(r) && r.body.Some? then FindUsername(r.body.value) else JNull
  }

  /** One call of the listener: a truthy find is stored only while nothing truthy is stored. */
  function CaptureStep(u: Json, r: Response): (u': Json)
    ensures Truthy(u) ==> u' == u
    ensures !Truthy(u) ==> u' == (if Truthy(Found(r)) then Found(r) else u)
  {
    if Truthy(Found(r)) && !Truthy(u) then Found(r) else u
  }

  /** The stored value after the listener has seen `rs`, in arrival order. */
  function CaptureAll(u: Json, rs: seq<Response>): Json {
    if rs == [] then u else CaptureStep(CaptureAll(u, rs[..|rs| - 1]), rs[|rs| - 1])
  }

  /** Everything the listener finds in `rs`, in arrival order. */
  function Finds(rs: seq<Response>): (fs: seq<Json>)
    ensures |fs| == |rs| && forall i :: 0 <= i < |rs| ==> fs[i] == Found(rs[i])
  {
    if rs == [] then [] else Finds(rs[..|rs| - 1]) + [Found(rs[|rs| - 1])]
  }

  /** First writer wins: once a truthy username is stored, no later response changes it. */
  lemma {:induction false} FirstWriterWins(u: Json, rs: seq<Response>)
    requires Truthy(u)
    ensures CaptureAll(u, rs) == u
  {
    if rs != [] {
      FirstWriterWins(u, rs[..|rs| - 1]);
    }
  }

  /** Starting from nothing, the listener keeps the first truthy find of the whole stream
      (`None` when no response yields one). */
  lemma {:induction false} CaptureIsFirstFind(rs: seq<Response>)
    ensures CaptureAll(JNull, rs) == FirstTruthy(Finds(rs))
  {
    if rs != [] {
      var front := rs[..|rs| - 1];
      var last := rs[|rs| - 1];
      CaptureIsFirstFind(front);
      FirstTruthyConcat(Finds(front), [Found(last)]);
    }
  }

  /** `captured_info`: the dictionary the listener writes into. */
  class Capture {
    var username: Json

    constructor ()
      ensures username == JNull
    {
      username := JNull;
    }

    /** `handle_response` for one response. */
    method HandleResponse(r: Response)
      modifies this
      ensures username == CaptureStep(old(username), r)
    {
      if Inspected(r) && r.body.Some? {
        var found := FindUsername(r.body.value);
        if Truthy(found) && !Truthy(username) {
          username := found;
        }
      }
    }

    /** The listener attached for the load: it is called on each response in turn. */
    method Listen(rs: seq<Response>)
      modifies this
      ensures username == CaptureAll(old(username), rs)
    {
      for i := 0 to |rs|
        invariant username == CaptureAll(old(username), rs[..i])
      {
        assert rs[..i + 1][..i] == rs[..i];
        HandleResponse(rs[i]);
      }
      assert rs[..|rs|] == rs;
    }
  }
}
