/** The image-delete API route (app/api/delete-image/route.js): derive an
    asset id from each gallery URL and ask the image host to destroy it.
    The image host's `destroy` call is a parameter of the model. */
module DeleteImage {
  import opened Text
  import opened Wrappers

  /** The path marker the route splits URLs on. */
  const Marker: string := "/upload/"

  /** The first occurrence of `p` in `s` at or after `from`, as `indexOf` finds it. */
  function IndexOfFrom(s: string, p: string, from: nat): (r: Option<nat>)
    decreases |s| - from
    ensures r.Some? ==> from <= r.value && r.value + |p| <= |s|
  {
    if from + |p| > |s| then None
    else if OccursAt(s, p, from) then Some(from)
    else IndexOfFrom(s, p, from + 1)
  }

  /** `IndexOfFrom` finds the first occurrence at or after `from`, and finds
      none exactly when there is none. */
  lemma {:induction false} IndexOfFromSpec(s: string, p: string, from: nat)
    decreases |s| - from
    ensures var r := IndexOfFrom(s, p, from);
      && (r.Some? ==> from <= r.value && OccursAt(s, p, r.value))
      && (r.Some? ==> forall j :: from <= j < r.value ==> !OccursAt(s, p, j))
      && (r.None? ==> forall j :: from <= j ==> !OccursAt(s, p, j))
  {
    if from + |p| <= |s| && !OccursAt(s, p, from) {
      IndexOfFromSpec(s, p, from + 1);
    }
  }

  /** `url.split("/upload/")[1]` when there are at least two pieces: the text
      after the first marker up to the next marker or the end. */
  function UploadSegment(url: string): Option<string>
  {
    match IndexOfFrom(url, Marker, 0)
    case None => None
    case Some(k) =>
      var start := k + |Marker|;
      match IndexOfFrom(url, Marker, start)
      case Some(e) => Some(url[start..e])
      case None => Some(url[start..])
  }

  /** The segment exists exactly when the URL holds the marker, and it is the
      text between the first marker and the next one (or the end). */
  lemma {:induction false} UploadSegmentSpec(url: string)
    ensures UploadSegment(url).None? <==> forall j :: !OccursAt(url, Marker, j)
    ensures UploadSegment(url).Some? ==>
      exists k, e :: SegmentBounds(url, k, e) && UploadSegment(url).value == url[k + |Marker|..e]
  {
    IndexOfFromSpec(url, Marker, 0);
    match IndexOfFrom(url, Marker, 0)
    case None =>
    case Some(k) =>
      SegmentAfter(url, k);
  }

  lemma {:induction false} SegmentAfter(url: string, k: nat)
    requires IndexOfFrom(url, Marker, 0) == Some(k)
    ensures exists e :: SegmentBounds(url, k, e) && UploadSegment(url) == Some(url[k + |Marker|..e])
  {
    IndexOfFromSpec(url, Marker, 0);
    var start := k + |Marker|;
    IndexOfFromSpec(url, Marker, start);
    match IndexOfFrom(url, Marker, start)
    case Some(e) =>
      assert SegmentBounds(url, k, e);
    case None =>
      assert SegmentBounds(url, k, |url|);
      assert url[start..] == url[start..|url|];
  }

  /** The marker first occurs at `k`, and `e` is where the piece after it
      ends: at the next marker or at the end of the URL. */
  ghost predicate SegmentBounds(url: string, k: int, e: int)
  {
    && OccursAt(url, Marker, k)
    && (forall j :: 0 <= j < k ==> !OccursAt(url, Marker, j))
    && k + |Marker| <= e <= |url|
    && (forall j :: k + |Marker| <= j < e ==> !OccursAt(url, Marker, j))
    && (e == |url| || OccursAt(url, Marker, e))
  }

  /** `lastIndexOf(c)`. */
  function LastIndexOf(s: string, c: char): (r: Option<nat>)
    ensures r.Some? ==> r.value < |s|
  {
    if s == [] then None
    else if s[|s| - 1] == c then Some(|s| - 1)
    else LastIndexOf(s[..|s| - 1], c)
  }

  /** `LastIndexOf` finds the last occurrence, and none exactly when there is none. */
  lemma {:induction false} LastIndexOfSpec(s: string, c: char)
    ensures var r := LastIndexOf(s, c);
      && (r.None? <==> c !in s)
      && (r.Some? ==> r.value < |s| && s[r.value] == c && c !in s[r.value + 1..])
  {
    if s != [] && s[|s| - 1] != c {
      var init := s[..|s| - 1];
      assert init + [s[|s| - 1]] == s;
      LastIndexOfSpec(init, c);
      var r := LastIndexOf(init, c);
      if r.Some? {
        assert s[r.value + 1..] == init[r.value + 1..] + [s[|s| - 1]];
      }
    }
  }

  /** `getPublicIdFromUrl(url)`: null without the marker; otherwise the
      segment after the first marker, cut before its last dot. */
  function GetPublicIdFromUrl(url: string): Option<string>
  {
    match UploadSegment(url)
    case None => None
    case Some(seg) =>
      match LastIndexOf(seg, '.')
      case Some(d) => Some(seg[..d])
      case None => Some(seg)
  }

  /** The id is null exactly when the URL has no marker; otherwise it is the
      segment itself when the segment has no dot, and else the segment cut
      just before its last dot, so the removed suffix is one dot and a
      dot-free extension. */
  lemma {:induction false} PublicIdSpec(url: string)
    ensures GetPublicIdFromUrl(url).None? <==> forall j :: !OccursAt(url, Marker, j)
    ensures GetPublicIdFromUrl(url).Some? ==>
      var seg := UploadSegment(url).value;
      var id := GetPublicIdFromUrl(url).value;
      && UploadSegment(url).Some?
      && StartsWith(seg, id)
      && ('.' !in seg ==> id == seg)
      && ('.' in seg ==> |id| < |seg| && seg[|id|] == '.' && '.' !in seg[|id| + 1..])
  {
    UploadSegmentSpec(url);
    if UploadSegment(url).Some? {
      LastIndexOfSpec(UploadSegment(url).value, '.');
    }
  }

  /** An asset URL built as `<base>/upload/<name>` has `<name>` as its
      segment, as long as the marker first occurs right after `base` and
      `name` holds no marker. */
  lemma {:induction false} SegmentOfBuiltUrl(base: string, name: string)
    requires forall j :: 0 <= j < |base| ==> !OccursAt(base + Marker, Marker, j)
    requires forall j :: !OccursAt(name, Marker, j)
    ensures UploadSegment(base + Marker + name) == Some(name)
  {
    var url := base + Marker + name;
    FirstMarkerAfterBase(base, name);
    NoMarkerInName(base, name);
    assert url[|base| + |Marker|..] == name;
  }

  lemma {:induction false} FirstMarkerAfterBase(base: string, name: string)
    requires forall j :: 0 <= j < |base| ==> !OccursAt(base + Marker, Marker, j)
    ensures IndexOfFrom(base + Marker + name, Marker, 0) == Some(|base|)
  {
    var bm := base + Marker;
    var url := bm + name;
    assert url == base + Marker + name;
    assert url[..|bm|] == bm;
    forall j | 0 <= j < |base|
      ensures !OccursAt(url, Marker, j)
    {
      if j + |Marker| <= |url| {
        assert url[j..j + |Marker|] == url[..|bm|][j..j + |Marker|];
      }
      assert !OccursAt(bm, Marker, j);
    }
    assert OccursAt(url, Marker, |base|) by {
      assert url[|base|..|base| + |Marker|] == Marker;
    }
    IndexOfFromSpec(url, Marker, 0);
  }

  lemma {:induction false} NoMarkerInName(base: string, name: string)
    requires forall j :: !OccursAt(name, Marker, j)
    ensures IndexOfFrom(base + Marker + name, Marker, |base| + |Marker|) == None
  {
    var url := base + Marker + name;
    var start := |base| + |Marker|;
    assert url[start..] == name;
    forall j | start <= j
      ensures !OccursAt(url, Marker, j)
    {
      assert !OccursAt(name, Marker, j - start);
    }
    IndexOfFromSpec(url, Marker, start);
  }

  /** An asset URL built as `<base>/upload/<id>.<ext>` gives back `<id>`, as
      long as the marker first occurs right after `base`, `id` and `ext` hold
      no marker, and the extension holds no dot. */
  lemma {:induction false} PublicIdRoundTrip(base: string, id: string, ext: string)
    requires forall j :: 0 <= j < |base| ==> !OccursAt(base + Marker, Marker, j)
    requires forall j :: !OccursAt(id + "." + ext, Marker, j)
    requires '.' !in ext
    ensures GetPublicIdFromUrl(base + Marker + id + "." + ext) == Some(id)
  {
    var name := id + "." + ext;
    SegmentOfBuiltUrl(base, name);
    assert base + Marker + id + "." + ext == base + Marker + name;
    assert name[|id|] == '.';
    assert name[|id| + 1..] == ext;
    LastIndexOfSpec(name, '.');
    assert LastIndexOf(name, '.') == Some(|id|);
    assert name[..|id|] == id;
  }

  /** What the route reads from the JSON body: `gallery` when it is an array.
      `image` is sent by the editors but never read. */
  datatype DeleteRequest = DeleteRequest(image: Option<string>, gallery: Option<seq<string>>)

  /** The result of one `cloudinary.uploader.destroy` call. */
  datatype DestroyOutcome = Destroyed(result: string) | DestroyThrew

  /** The route's response: status 200 with `results` (whose `gallery` key
      is present only when a gallery array was sent), or status 500. */
  datatype DeleteResponse = Results(gallery: Option<seq<string>>) | ServerError

  function Status(r: DeleteResponse): int
  {
    if r.Results? then 200 else 500
  }

  /** The derived id of every gallery URL, in order. */
  function PublicIds(gallery: seq<string>): (r: seq<Option<string>>)
    ensures |r| == |gallery|
    ensures forall i :: 0 <= i < |gallery| ==> r[i] == GetPublicIdFromUrl(gallery[i])
  {
    seq(|gallery|, i requires 0 <= i < |gallery| => GetPublicIdFromUrl(gallery[i]))
  }

  /** The ids that pass `if (publicId)`: neither null nor empty, in order. */
  function TruthyIds(ids: seq<Option<string>>): (r: seq<string>)
    ensures |r| <= |ids|
  {
    if ids == [] then []
    else
      var id := ids[|ids| - 1];
      TruthyIds(ids[..|ids| - 1]) + (if id.Some? && id.value != "" then [id.value] else [])
  }

  /** The ids `destroy` is called with, in order, when none of the calls throws. */
  function DestroyTargets(gallery: seq<string>): seq<string>
  {
    TruthyIds(PublicIds(gallery))
  }

  lemma {:induction false} TruthyIdsAppend(a: seq<Option<string>>, b: seq<Option<string>>)
    ensures TruthyIds(a + b) == TruthyIds(a) + TruthyIds(b)
    decreases |b|
  {
    if b == [] {
      assert a + b == a;
    } else {
      var b' := b[..|b| - 1];
      var ab := a + b;
      assert ab[..|ab| - 1] == a + b';
      TruthyIdsAppend(a, b');
    }
  }

  /** Every gallery URL carrying a non-empty id is destroyed, and only those. */
  lemma {:induction false} DestroyTargetsExactly(gallery: seq<string>, id: string)
    ensures id in DestroyTargets(gallery) <==>
      exists i :: 0 <= i < |gallery| && GetPublicIdFromUrl(gallery[i]) == Some(id) && id != ""
  {
    TruthyIdsExactly(PublicIds(gallery), id);
  }

  lemma {:induction false} TruthyIdsExactly(ids: seq<Option<string>>, id: string)
    ensures id in TruthyIds(ids) <==> exists i :: 0 <= i < |ids| && ids[i] == Some(id) && id != ""
  {
    if ids != [] {
      var init := ids[..|ids| - 1];
      TruthyIdsExactly(init, id);
      if exists i :: 0 <= i < |ids| && ids[i] == Some(id) && id != "" {
        var i :| 0 <= i < |ids| && ids[i] == Some(id) && id != "";
        if i < |ids| - 1 {
          assert init[i] == ids[i];
        }
      }
    }
  }

  /** The results of destroying `targets` one after another, none throwing. */
  function DestroyResults(targets: seq<string>, destroy: string -> DestroyOutcome): (r: seq<string>)
    requires forall i :: 0 <= i < |targets| ==> destroy(targets[i]).Destroyed?
    ensures |r| == |targets|
    ensures forall i :: 0 <= i < |targets| ==> r[i] == destroy(targets[i]).result
  {
    seq(|targets|, i requires 0 <= i < |targets| => destroy(targets[i]).result)
  }

  /** The loop of `POST` over `gallery`: destroy each non-empty id in turn,
      collecting the results; a throwing call ends the loop (`None`). */
  method DestroyGallery(gallery: seq<string>, destroy: string -> DestroyOutcome)
    returns (results: Option<seq<string>>, calls: seq<string>)
    ensures |calls| <= |DestroyTargets(gallery)| && calls == DestroyTargets(gallery)[..|calls|]
    ensures forall i :: 0 <= i < |calls| - 1 ==> destroy(calls[i]).Destroyed?
    ensures results.Some? ==> calls == DestroyTargets(gallery)
    ensures results.Some? ==> forall i :: 0 <= i < |calls| ==> destroy(calls[i]).Destroyed?
    ensures results.Some? ==> results.value == DestroyResults(calls, destroy)
    ensures results.None? ==> calls != [] && destroy(calls[|calls| - 1]).DestroyThrew?
  {
    var done: seq<string> := [];
    calls := [];
    var i := 0;
    ghost var ids := PublicIds(gallery);
    ghost var seen: seq<Option<string>> := [];
    while i < |gallery|
      invariant 0 <= i <= |gallery| && seen == ids[..i]
      invariant calls == TruthyIds(seen)
      invariant forall j :: 0 <= j < |calls| ==> destroy(calls[j]).Destroyed?
      invariant done == DestroyResults(calls, destroy)
    {
      var publicId := GetPublicIdFromUrl(gallery[i]);
      assert publicId == ids[i];
      TruthyIdsSnoc(seen, publicId);
      assert ids[..i + 1] == seen + [publicId];
      if publicId.Some? && publicId.value != "" {
        var outcome := destroy(publicId.value);
        if outcome.DestroyThrew? {
          calls := calls + [publicId.value];
          CallsArePrefix(ids, i + 1);
          return None, calls;
        }
        DestroyResultsStep(calls, publicId.value, destroy);
        calls := calls + [publicId.value];
        done := done + [outcome.result];
      }
      seen := seen + [publicId];
      i := i + 1;
    }
    assert seen == ids;
    results := Some(done);
  }

  /** `POST(req)`: `body` is `None` when the JSON body cannot be read. The
      method returns the response and the ids passed to `destroy`, in order. */
  method Post(body: Option<DeleteRequest>, destroy: string -> DestroyOutcome)
    returns (response: DeleteResponse, calls: seq<string>)
    ensures body.None? ==> response == ServerError && calls == []
    ensures body.Some? && body.value.gallery.None? ==> response == Results(None) && calls == []
    ensures body.Some? && body.value.gallery.Some? ==>
      var targets := DestroyTargets(body.value.gallery.value);
      && |calls| <= |targets| && calls == targets[..|calls|]
      && (response.Results? <==> forall i :: 0 <= i < |targets| ==> destroy(targets[i]).Destroyed?)
      && (response.Results? ==> calls == targets && response == Results(Some(DestroyResults(targets, destroy))))
      && (response.ServerError? ==>
            calls != [] && destroy(calls[|calls| - 1]).DestroyThrew?
            && forall i :: 0 <= i < |calls| - 1 ==> destroy(calls[i]).Destroyed?)
  {
    if body.None? {
      return ServerError, [];
    }
    if body.value.gallery.None? {
      return Results(None), [];
    }
    var results;
    results, calls := DestroyGallery(body.value.gallery.value, destroy);
    if results.None? {
      ghost var targets := DestroyTargets(body.value.gallery.value);
      assert targets[|calls| - 1] == calls[|calls| - 1];
      response := ServerError;
    } else {
      response := Results(results);
    }
  }

  lemma {:induction false} TruthyIdsSnoc(seen: seq<Option<string>>, id: Option<string>)
    ensures TruthyIds(seen + [id]) == TruthyIds(seen) + (if id.Some? && id.value != "" then [id.value] else [])
  {
    assert (seen + [id])[..|seen|] == seen;
  }

  lemma {:induction false} DestroyResultsStep(calls: seq<string>, id: string, destroy: string -> DestroyOutcome)
    requires forall j :: 0 <= j < |calls| ==> destroy(calls[j]).Destroyed?
    requires destroy(id).Destroyed?
    ensures DestroyResults(calls + [id], destroy) == DestroyResults(calls, destroy) + [destroy(id).result]
  {
  }

  /** The ids destroyed for a prefix of the gallery lead the full list. */
  lemma {:induction false} CallsArePrefix(ids: seq<Option<string>>, n: nat)
    requires n <= |ids|
    ensures var calls := TruthyIds(ids[..n]);
      |calls| <= |TruthyIds(ids)| && calls == TruthyIds(ids)[..|calls|]
  {
    TruthyIdsAppend(ids[..n], ids[n..]);
    assert ids[..n] + ids[n..] == ids;
  }

  /** The request body sent by the blog editor's delete: only `image`. */
  function BlogDeleteRequest(coverImage: string): DeleteRequest
  {
    DeleteRequest(Some(coverImage), None)
  }

  /** The request body sent by the projects editor's delete. */
  function ProjectDeleteRequest(image: string, gallery: seq<string>): DeleteRequest
  {
    DeleteRequest(Some(image), Some(gallery))
  }

  /** Finding, as written: the route ignores `image`, so the blog editor's
      delete request destroys nothing, whatever its cover image URL. */
  method BlogDeleteDestroysNothing(coverImage: string, destroy: string -> DestroyOutcome)
    returns (response: DeleteResponse, calls: seq<string>)
    ensures calls == [] && Status(response) == 200
  {
    response, calls := Post(Some(BlogDeleteRequest(coverImage)), destroy);
  }

  /** Finding, corrected: the ids the route would destroy if it also read
      `image`, the main image first and then the gallery. */
  function DestroyTargetsWithImage(req: DeleteRequest): (r: seq<string>)
  {
    (match req.image
     case Some(u) => DestroyTargets([u])
     case None => [])
    + (match req.gallery
       case Some(g) => DestroyTargets(g)
       case None => [])
  }

  /** With the correction, a cover or main image whose URL carries an id is
      destroyed, and so is every gallery id. */
  lemma {:induction false} ImageIsDestroyedWhenRead(req: DeleteRequest)
    requires req.image.Some?
    requires GetPublicIdFromUrl(req.image.value).Some? && GetPublicIdFromUrl(req.image.value).value != ""
    ensures GetPublicIdFromUrl(req.image.value).value in DestroyTargetsWithImage(req)
    ensures req.gallery.Some? ==> forall t :: t in DestroyTargets(req.gallery.value) ==> t in DestroyTargetsWithImage(req)
  {
    var u := req.image.value;
    var ids := PublicIds([u]);
    assert ids[..0] == [];
    assert DestroyTargets([u]) == [GetPublicIdFromUrl(u).value];
  }
}
