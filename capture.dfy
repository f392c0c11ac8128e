/**
 * The `page.on('response')` handler of clone.js and the `saved` set it keeps:
 * resource-type filter, dedup on the raw request URL, status filter, lazy body
 * read, empty-body filter, URL parse, naming, write, and only then `saved.add`.
 * Every exception inside the handler is swallowed, so each failure is just an outcome.
 */
module Capture {
  import opened Wrappers
  import opened Classifier

  newtype byte = b: int | 0 <= b < 256
  type Bytes = seq<byte>

  /** The resource types the handler keeps; every other type returns at once. */
  const CapturedTypes: seq<string> := ["stylesheet", "script", "image", "font", "media", "document"]

  /**
   * One response event as the handler sees it. `body` is what `resp.buffer()` gives,
   * `None` when it throws; `parsed` is `new URL(url)`, `None` when it throws;
   * `contentType` is the `content-type` header, `None` when absent.
   */
  datatype Response = Response(
    url: string,
    resourceType: string,
    status: int,
    contentType: Option<string>,
    body: Option<Bytes>,
    parsed: Option<Url>)

  /** Where the handler stopped for one event. Only `Saved` adds the URL to `saved`. */
  datatype Outcome =
    | WrongType                 // not one of the six resource types
    | AlreadySaved              // URL already in `saved`
    | HttpError                 // status >= 400
    | ReadThrew                 // `resp.buffer()` threw
    | EmptyBody                 // the buffer has no bytes
    | UrlThrew                  // `new URL(url)` threw
    | WriteThrew(name: string)  // the write of `assets/<name>` failed
    | Saved(name: string)       // `assets/<name>` written and the URL recorded
  {
    /** `resp.buffer()` was called for this event. */
    predicate ReadBody() {
      !(WrongType? || AlreadySaved? || HttpError?)
    }
  }

  /**
   * The handler on one event, given the `saved` set at its start and whether the
   * file write succeeds.
   */
  function Decide(saved: set<string>, r: Response, writeOk: bool): (o: Outcome)
    // the body is read exactly when the cheap checks pass, and never for a saved URL
    ensures o.ReadBody() <==> r.resourceType in CapturedTypes && r.url !in saved && r.status < 400
    // a response is saved exactly when every filter passed and the write succeeded
    ensures o.Saved? <==>
      r.resourceType in CapturedTypes && r.url !in saved && r.status < 400
      && r.body.Some? && |r.body.value| > 0 && r.parsed.Some? && writeOk
    // the name written is the one the classifier derives from the URL and the header
    ensures (o.Saved? || o.WriteThrew?) ==>
      r.parsed.Some? && o.name == AssetName(r.parsed.value, ResolveExtension(r.parsed.value.pathname, r.contentType))
  {
    if r.resourceType !in CapturedTypes then WrongType
    else if r.url in saved then AlreadySaved
    else if r.status >= 400 then HttpError
    else match r.body
      case None => ReadThrew
      case Some(buf) =>
        if |buf| == 0 then EmptyBody
        else match r.parsed
          case None => UrlThrew
          case Some(u) =>
            var name := AssetName(u, ResolveExtension(u.pathname, r.contentType));
            if writeOk then Saved(name) else WriteThrew(name)
  }

  /** The `saved` set after one event. */
  function SavedAfter(saved: set<string>, r: Response, o: Outcome): set<string> {
    if o.Saved? then saved + {r.url} else saved
  }

  /** The sink of one capture session: the `saved` set, the `assets/` directory, and the URLs whose bodies were read. */
  class CaptureSink {
    var saved: set<string>
    var files: map<string, Bytes>
    var bodyReads: seq<string>

    /** Every saved URL had its body read, and every file under `assets/` has a sanitised name. */
    ghost predicate Valid()
      reads this
    {
      && (forall u :: u in saved ==> u in bodyReads)
      && (forall n :: n in files ==> IsAssetName(n))
    }

    constructor ()
      ensures Valid()
      ensures saved == {} && files == map[] && bodyReads == []
    {
      saved, files, bodyReads := {}, map[], [];
    }

    /** Handles one response event; `writeOk` is what the file system does with the write. */
    method OnResponse(r: Response, writeOk: bool) returns (o: Outcome)
      requires Valid()
      modifies this
      ensures Valid()
      ensures o == Decide(old(saved), r, writeOk)
      ensures saved == SavedAfter(old(saved), r, o)
      ensures files == if o.Saved? then old(files)[o.name := r.body.value] else old(files)
      ensures bodyReads == old(bodyReads) + (if o.ReadBody() then [r.url] else [])
    {
      if r.resourceType !in CapturedTypes {
        return WrongType;
      }
      if r.url in saved {
        return AlreadySaved;
      }
      if r.status >= 400 {
        return HttpError;
      }
      bodyReads := bodyReads + [r.url];
      if r.body.None? {
        return ReadThrew;
      }
      var buf := r.body.value;
      if |buf| == 0 {
        return EmptyBody;
      }
      if r.parsed.None? {
        return UrlThrew;
      }
      var name := NameAsset(r.parsed.value, r.contentType);
      if !writeOk {
        return WriteThrew(name);
      }
      Store(r.url, name, buf);
      o := Saved(name);
    }

    /**
     * Handles the events of `ds` one after another, as the session does. It returns
     * the URLs written, in order; each is written once, and `saved` ends as the
     * session-level functions say.
     */
    method OnResponses(ds: seq<Delivery>) returns (written: seq<string>)
      requires Valid()
      modifies this
      ensures Valid()
      ensures written == SavedUrls(old(saved), ds)
      ensures saved == FinalSaved(old(saved), ds)
      ensures files == FinalFiles(old(saved), old(files), ds)
      ensures bodyReads == old(bodyReads) + ReadUrls(old(saved), ds)
      ensures forall i, j :: 0 <= i < j < |written| ==> written[i] != written[j]
      ensures forall u :: u in written ==> u !in old(saved)
    {
      written := [];
      var i := 0;
      while i < |ds|
        invariant 0 <= i <= |ds|
        invariant Valid()
        invariant written + SavedUrls(saved, ds[i..]) == SavedUrls(old(saved), ds)
        invariant FinalSaved(saved, ds[i..]) == FinalSaved(old(saved), ds)
        invariant FinalFiles(saved, files, ds[i..]) == FinalFiles(old(saved), old(files), ds)
        invariant bodyReads + ReadUrls(saved, ds[i..]) == old(bodyReads) + ReadUrls(old(saved), ds)
      {
        var d := ds[i];
        SessionStep(saved, files, ds[i..]);
        assert ds[i..][0] == d && ds[i..][1..] == ds[i + 1..];
        var o := OnResponse(d.resp, d.writeOk);
        if o.Saved? {
          written := written + [d.resp.url];
        }
        i := i + 1;
      }
      assert ds[i..] == [];
      EachUrlSavedOnce(old(saved), ds);
    }

    /** `writeFile` succeeded: the file exists with these bytes, then `saved.add(url)`. */
    method Store(url: string, name: string, buf: Bytes)
      requires Valid() && url in bodyReads && IsAssetName(name)
      modifies this
      ensures Valid()
      ensures saved == old(saved) + {url}
      ensures files == old(files)[name := buf]
      ensures bodyReads == old(bodyReads)
    {
      files := files[name := buf];
      saved := saved + {url};
    }
  }

  /** One event together with the file system's answer to its write. */
  datatype Delivery = Delivery(resp: Response, writeOk: bool)

  /** The URLs written, in order, when `ds` is handled one after another starting from `saved`. */
  function SavedUrls(saved: set<string>, ds: seq<Delivery>): seq<string>
    decreases |ds|
  {
    if ds == [] then []
    else
      var o := Decide(saved, ds[0].resp, ds[0].writeOk);
      (if o.Saved? then [ds[0].resp.url] else []) + SavedUrls(SavedAfter(saved, ds[0].resp, o), ds[1..])
  }

  /** The `saved` set after handling `ds` one after another. */
  function FinalSaved(saved: set<string>, ds: seq<Delivery>): set<string>
    decreases |ds|
  {
    if ds == [] then saved
    else
      var o := Decide(saved, ds[0].resp, ds[0].writeOk);
      FinalSaved(SavedAfter(saved, ds[0].resp, o), ds[1..])
  }

  /** The `assets/` directory after handling `ds` one after another: each `Saved` writes its body under its name. */
  function FinalFiles(saved: set<string>, files: map<string, Bytes>, ds: seq<Delivery>): map<string, Bytes>
    decreases |ds|
  {
    if ds == [] then files
    else
      var o := Decide(saved, ds[0].resp, ds[0].writeOk);
      var next := if o.Saved? then files[o.name := ds[0].resp.body.value] else files;
      FinalFiles(SavedAfter(saved, ds[0].resp, o), next, ds[1..])
  }

  /** The URLs whose bodies are read, in order, when `ds` is handled one after another starting from `saved`. */
  function ReadUrls(saved: set<string>, ds: seq<Delivery>): seq<string>
    decreases |ds|
  {
    if ds == [] then []
    else
      var o := Decide(saved, ds[0].resp, ds[0].writeOk);
      (if o.ReadBody() then [ds[0].resp.url] else []) + ReadUrls(SavedAfter(saved, ds[0].resp, o), ds[1..])
  }

  /** The session folds after their first event: one step of `Decide`, then the rest. */
  lemma SessionStep(saved: set<string>, files: map<string, Bytes>, ds: seq<Delivery>)
    requires ds != []
    ensures var o := Decide(saved, ds[0].resp, ds[0].writeOk);
      var next := SavedAfter(saved, ds[0].resp, o);
      && SavedUrls(saved, ds) == (if o.Saved? then [ds[0].resp.url] else []) + SavedUrls(next, ds[1..])
      && FinalSaved(saved, ds) == FinalSaved(next, ds[1..])
      && FinalFiles(saved, files, ds) == FinalFiles(next, if o.Saved? then files[o.name := ds[0].resp.body.value] else files, ds[1..])
      && ReadUrls(saved, ds) == (if o.ReadBody() then [ds[0].resp.url] else []) + ReadUrls(next, ds[1..])
  {
  }

  /**
   * Dedup over a session: a URL is written at most once, never if it was already
   * saved, and `saved` ends as the start set plus exactly the URLs written.
   */
  lemma {:induction false} EachUrlSavedOnce(saved: set<string>, ds: seq<Delivery>)
    ensures forall i, j :: 0 <= i < j < |SavedUrls(saved, ds)| ==> SavedUrls(saved, ds)[i] != SavedUrls(saved, ds)[j]
    ensures forall u :: u in SavedUrls(saved, ds) ==> u !in saved
    ensures forall u :: u in FinalSaved(saved, ds) <==> u in saved || u in SavedUrls(saved, ds)
    decreases |ds|
  {
    if ds != [] {
      var o := Decide(saved, ds[0].resp, ds[0].writeOk);
      var next := SavedAfter(saved, ds[0].resp, o);
      EachUrlSavedOnce(next, ds[1..]);
      var rest := SavedUrls(next, ds[1..]);
      var all := SavedUrls(saved, ds);
      if o.Saved? {
        assert all == [ds[0].resp.url] + rest;
      } else {
        assert all == rest;
      }
    }
  }

  /** `saved` only grows along a session. */
  lemma {:induction false} SavedOnlyGrows(saved: set<string>, ds: seq<Delivery>)
    ensures saved <= FinalSaved(saved, ds)
    decreases |ds|
  {
    if ds != [] {
      var o := Decide(saved, ds[0].resp, ds[0].writeOk);
      SavedOnlyGrows(SavedAfter(saved, ds[0].resp, o), ds[1..]);
    }
  }

  /**
   * A failed write leaves the URL out of `saved`, so the same response delivered
   * again with a working file system is saved under the same name.
   */
  lemma FailedWriteIsRetried(saved: set<string>, r: Response)
    requires Decide(saved, r, false).WriteThrew?
    ensures r.url !in SavedAfter(saved, r, Decide(saved, r, false))
    ensures Decide(SavedAfter(saved, r, Decide(saved, r, false)), r, true) == Saved(Decide(saved, r, false).name)
  {
  }

  /**
   * Names are not collision-free: two different URLs that parse to the same host,
   * path and query (they differ in scheme or port, say) are two dedup keys but one
   * file, so the second write replaces the first.
   */
  lemma OneFileForTwoUrls(saved: set<string>, a: Response, b: Response)
    requires a.url != b.url && b.url !in saved
    requires a.resourceType == b.resourceType && a.status == b.status
    requires a.contentType == b.contentType && a.parsed == b.parsed
    requires b.body.Some? && |b.body.value| > 0
    requires Decide(saved, a, true).Saved?
    ensures Decide(SavedAfter(saved, a, Decide(saved, a, true)), b, true) == Saved(Decide(saved, a, true).name)
  {
  }

  /** Such a pair exists: `http://h/` and `https://h/` both parse to host `h`, path `/`. */
  lemma SchemeIsDroppedFromNames()
    ensures var u := Url("h", "/", "");
      var a := Response("http://h/", "document", 200, None, Some([1]), Some(u));
      var b := Response("https://h/", "document", 200, None, Some([2]), Some(u));
      var oa := Decide({}, a, true);
      var ob := Decide(SavedAfter({}, a, oa), b, true);
      a.url != b.url && oa.Saved? && ob == Saved(oa.name)
  {
    var u := Url("h", "/", "");
    var a := Response("http://h/", "document", 200, None, Some([1]), Some(u));
    var b := Response("https://h/", "document", 200, None, Some([2]), Some(u));
    assert a.url[4] != b.url[4];
    OneFileForTwoUrls({}, a, b);
  }
}
