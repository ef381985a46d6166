// The photo resolver of src/lib/drive.ts: list every image of one storage folder by
// following the listing API's page cursor, then turn each listed file into a DriveImage
// (thumbnail filter, high-resolution link, dimension fallback, alt text).
//
// The listing API is a parameter `api` from request to response; the requests the
// resolver sends are returned as a trace so that the cursor protocol can be stated.

module Drive {
  import opened Types

  // ---------------------------------------------------------------------------
  // The listing API boundary
  // ---------------------------------------------------------------------------

  /** A width or height as the metadata carries it: a JSON number or a string. */
  datatype RawDimension = NumberValue(n: int) | StringValue(s: string)

  datatype MediaMetadata = MediaMetadata(width: Option<RawDimension>, height: Option<RawDimension>)

  datatype GoogleFile = GoogleFile(
    id: string,
    name: Option<string>,
    mimeType: string,
    thumbnailLink: Option<string>,
    imageMediaMetadata: Option<MediaMetadata>)

  /** The query parameters of one listing request (the API key is not modelled). */
  datatype Request = Request(
    fields: string,
    pageSize: string,
    orderBy: string,
    q: Option<string>,
    pageToken: Option<string>)

  /**
   * A decoded listing page, or `Failure` for a fetch that throws or a body that is not JSON.
   * An HTTP error whose body is JSON (an `error` object) is a `Page` with neither files nor
   * cursor: it ends the listing and keeps the files of the pages before it.
   */
  datatype Response =
    | Page(files: Option<seq<GoogleFile>>, nextPageToken: Option<string>)
    | Failure

  /** What the resolver hands to the gallery. */
  datatype DriveImage = DriveImage(id: string, src: string, width: int, height: int, alt: string)

  const Fields := "nextPageToken, files(id, name, mimeType, thumbnailLink, imageMediaMetadata)"
  const PageSize := "1000"
  const OrderBy := "createdTime desc"

  /** The filter of the first request: images directly in the folder that are not trashed. */
  function FolderQuery(folderId: string): (q: string)
    ensures |q| > |folderId| && q[1..1 + |folderId|] == folderId
  {
    "'" + folderId + "' in parents and mimeType contains 'image/' and trashed = false"
  }

  /** The parameters sent for the current cursor: the filter when there is none, else the cursor alone. */
  function BuildRequest(folderId: string, pageToken: string): (r: Request)
    ensures r.fields == Fields && r.pageSize == PageSize && r.orderBy == OrderBy
    ensures r.q.Some? <==> pageToken == ""
    ensures r.q.Some? ==> r.q.value == FolderQuery(folderId)
    ensures r.pageToken.Some? <==> pageToken != ""
    ensures r.pageToken.Some? ==> r.pageToken.value == pageToken
  {
    if pageToken != "" then Request(Fields, PageSize, OrderBy, None, Some(pageToken))
    else Request(Fields, PageSize, OrderBy, Some(FolderQuery(folderId)), None)
  }

  /** `data.files`, with a page that has none (or a failed request) contributing nothing. */
  function PageFiles(response: Response): (files: seq<GoogleFile>)
  {
    if response.Page? && response.files.Some? then response.files.value else []
  }

  /** `data.nextPageToken || ""`. */
  function NextToken(response: Response): (token: string)
  {
    if response.Page? && response.nextPageToken.Some? then response.nextPageToken.value else ""
  }

  /** The loop stops after this response: it failed, or it carries no cursor. */
  predicate Stops(response: Response)
  {
    response.Failure? || NextToken(response) == ""
  }

  /** Request `next` is the one sent after the response to `r`. */
  predicate Continues(api: Request -> Response, folderId: string, r: Request, next: Request)
  {
    && api(r).Page?
    && NextToken(api(r)) != ""
    && next == BuildRequest(folderId, NextToken(api(r)))
  }

  /** `rs` is the start of the resolver's conversation with the API. */
  predicate Linked(api: Request -> Response, folderId: string, rs: seq<Request>)
  {
    && |rs| >= 1
    && rs[0] == BuildRequest(folderId, "")
    && forall k :: 0 <= k < |rs| - 1 ==> Continues(api, folderId, rs[k], rs[k + 1])
  }

  /** `rs` is the whole conversation: linked, and the last response stops the loop. */
  predicate IsListingTrace(api: Request -> Response, folderId: string, rs: seq<Request>)
  {
    Linked(api, folderId, rs) && Stops(api(rs[|rs| - 1]))
  }

  /**
   * Following the cursor from `pageToken` stops within `n` requests. The listing API
   * gives no such bound; a caller of the resolver relies on the API to end the chain.
   */
  ghost predicate EndsWithin(api: Request -> Response, folderId: string, pageToken: string, n: nat)
    decreases n
  {
    && n > 0
    && var response := api(BuildRequest(folderId, pageToken));
       Stops(response) || EndsWithin(api, folderId, NextToken(response), n - 1)
  }

  /** The files of all responses to `rs`, concatenated in request order. */
  function Gathered(api: Request -> Response, rs: seq<Request>): seq<GoogleFile>
  {
    if rs == [] then [] else Gathered(api, rs[..|rs| - 1]) + PageFiles(api(rs[|rs| - 1]))
  }

  // ---------------------------------------------------------------------------
  // Numbers: JavaScript's Number() on the metadata values
  // ---------------------------------------------------------------------------

  datatype JsNumber = Num(value: int) | NaN

  predicate IsDigit(c: char) { '0' <= c <= '9' }

  predicate AllDigits(s: string) { forall i :: 0 <= i < |s| ==> IsDigit(s[i]) }

  function DecimalValue(s: string): (v: nat)
    requires AllDigits(s)
    ensures v == 0 <==> forall i :: 0 <= i < |s| ==> s[i] == '0'
  {
    if s == [] then 0
    else
      var init := s[..|s| - 1];
      assert forall i :: 0 <= i < |init| ==> init[i] == s[i];
      DecimalValue(init) * 10 + (s[|s| - 1] as int - '0' as int)
  }

  function ToNumber(raw: Option<RawDimension>): (x: JsNumber)
    ensures raw.None? ==> x.NaN?
    ensures raw.Some? && raw.value.NumberValue? ==> x == Num(raw.value.n)
    ensures raw.Some? && raw.value.StringValue? ==>
      && (x.Num? <==> AllDigits(raw.value.s))
      && (x.Num? ==> x.value >= 0)
      && (x.Num? ==> (x.value == 0 <==> forall i :: 0 <= i < |raw.value.s| ==> raw.value.s[i] == '0'))
  {
    match raw
    case None => NaN
    case Some(NumberValue(n)) => Num(n)
    case Some(StringValue(s)) =>
      if s == "" then Num(0)
      else if AllDigits(s) then Num(DecimalValue(s))
      else NaN
  }

  /** Neither `!x` nor `isNaN(x)`: a number other than 0 and NaN. */
  predicate Usable(x: JsNumber) { x.Num? && x.value != 0 }

  const FallbackWidth := 800
  const FallbackHeight := 600

  function Width(meta: Option<MediaMetadata>): JsNumber
  {
    ToNumber(if meta.Some? then meta.value.width else None)
  }

  function Height(meta: Option<MediaMetadata>): JsNumber
  {
    ToNumber(if meta.Some? then meta.value.height else None)
  }

  /** The metadata's width and height when both are usable, else 800 by 600 together. */
  function Dimensions(meta: Option<MediaMetadata>): (size: (int, int))
    ensures size.0 != 0 && size.1 != 0
    ensures Usable(Width(meta)) && Usable(Height(meta)) ==> size == (Width(meta).value, Height(meta).value)
    ensures !(Usable(Width(meta)) && Usable(Height(meta))) ==> size == (FallbackWidth, FallbackHeight)
  {
    var w, h := Width(meta), Height(meta);
    if !Usable(w) || !Usable(h) then (FallbackWidth, FallbackHeight) else (w.value, h.value)
  }

  // ---------------------------------------------------------------------------
  // The high-resolution link: replace the first `=s<digits>` by `=s3000`
  // ---------------------------------------------------------------------------

  /** A size parameter `=s` followed by at least one digit starts at `i`. */
  predicate SizeParamAt(s: string, i: int)
  {
    0 <= i && i + 2 < |s| && s[i] == '=' && s[i + 1] == 's' && IsDigit(s[i + 2])
  }

  /** Length of the maximal run of digits starting at `j`. */
  function DigitRun(s: string, j: nat): (k: nat)
    requires j <= |s|
    ensures j + k <= |s|
    ensures forall m :: j <= m < j + k ==> IsDigit(s[m])
    ensures j + k == |s| || !IsDigit(s[j + k])
    decreases |s| - j
  {
    if j < |s| && IsDigit(s[j]) then 1 + DigitRun(s, j + 1) else 0
  }

  /** The leftmost size parameter at or after `from`. */
  function FindSizeParam(s: string, from: nat): (r: Option<nat>)
    ensures r.Some? ==> from <= r.value && SizeParamAt(s, r.value)
    ensures forall m :: from <= m && (r.None? || m < r.value) ==> !SizeParamAt(s, m)
    decreases |s| - from
  {
    if from + 2 >= |s| then None
    else if SizeParamAt(s, from) then Some(from)
    else FindSizeParam(s, from + 1)
  }

  const HighResSize := "=s3000"

  /** `link.replace(/=s\d+/, "=s3000")`. */
  function RewriteSize(link: string): (src: string)
    ensures (forall m :: !SizeParamAt(link, m)) ==> src == link
  {
    match FindSizeParam(link, 0)
    case None => link
    case Some(i) => link[..i] + HighResSize + link[i + 2 + DigitRun(link, i + 2)..]
  }

  // ---------------------------------------------------------------------------
  // Alt text: the file name without its last extension
  // ---------------------------------------------------------------------------

  /** `name[p..]` matches `\.[^/.]+$`: a dot, then at least one character, none a dot or a slash. */
  predicate ExtensionAt(name: string, p: int)
  {
    && 0 <= p
    && p + 1 < |name|
    && name[p] == '.'
    && forall m :: p < m < |name| ==> name[m] != '.' && name[m] != '/'
  }

  /** Scans leftwards from `i` for the dot that starts the extension. */
  function FindExtension(name: string, i: int): (r: Option<nat>)
    requires -1 <= i < |name|
    requires forall m :: i < m < |name| ==> name[m] != '.' && name[m] != '/'
    ensures r.Some? ==> ExtensionAt(name, r.value)
    ensures r.None? ==> forall p :: !ExtensionAt(name, p)
    decreases i + 1
  {
    if i < 0 then None
    else if name[i] == '/' then None
    else if name[i] == '.' then (if i + 1 < |name| then Some(i) else None)
    else FindExtension(name, i - 1)
  }

  /** `name.replace(/\.[^/.]+$/, "")`. */
  function StripExtension(name: string): (r: string)
    ensures (exists p :: ExtensionAt(name, p)) ==> |r| < |name| && ExtensionAt(name, |r|) && r == name[..|r|]
    ensures (forall p :: !ExtensionAt(name, p)) ==> r == name
  {
    match FindExtension(name, |name| - 1)
    case None => name
    case Some(p) => name[..p]
  }

  const Untitled := "Untitled"

  /** The alt text: the stripped name, or "Untitled" for an absent or empty name. */
  function AltText(name: Option<string>): (alt: string)
    ensures name.None? || name.value == "" ==> alt == Untitled
    ensures name.Some? && name.value != "" ==> |alt| <= |name.value| && alt == name.value[..|alt|]
  {
    if name.Some? && name.value != "" then StripExtension(name.value) else Untitled
  }

  // ---------------------------------------------------------------------------
  // Post-processing: filter and map
  // ---------------------------------------------------------------------------

  /** `file.thumbnailLink` is truthy: present and not empty. */
  predicate HasThumbnail(f: GoogleFile)
  {
    f.thumbnailLink.Some? && f.thumbnailLink.value != ""
  }

  function ToImage(f: GoogleFile): (img: DriveImage)
    requires HasThumbnail(f)
    ensures img.id == f.id
    ensures img.src == RewriteSize(f.thumbnailLink.value)
    ensures img.alt == AltText(f.name)
    ensures img.width != 0 && img.height != 0
    ensures (img.width, img.height) == Dimensions(f.imageMediaMetadata)
  {
    var size := Dimensions(f.imageMediaMetadata);
    DriveImage(f.id, RewriteSize(f.thumbnailLink.value), size.0, size.1, AltText(f.name))
  }

  /** `files.filter(f => f.thumbnailLink).map(...)`. */
  function Normalize(files: seq<GoogleFile>): (images: seq<DriveImage>)
    ensures |images| <= |files|
  {
    if files == [] then []
    else
      var head := if HasThumbnail(files[0]) then [ToImage(files[0])] else [];
      head + Normalize(files[1..])
  }

  // ---------------------------------------------------------------------------
  // getImagesFromDrive
  // ---------------------------------------------------------------------------

  /**
   * Lists the folder page by page, then normalises the collected files. Any failed
   * request makes the whole result empty. `pages` bounds the length of the cursor chain.
   */
  method GetImagesFromDrive(api: Request -> Response, folderId: string, ghost pages: nat)
    returns (images: seq<DriveImage>, requests: seq<Request>)
    requires EndsWithin(api, folderId, "", pages)
    ensures IsListingTrace(api, folderId, requests)
    ensures |requests| <= pages
    ensures api(requests[|requests| - 1]).Failure? ==> images == []
    ensures api(requests[|requests| - 1]).Page? ==> images == Normalize(Gathered(api, requests))
  {
    var allFiles: seq<GoogleFile> := [];
    var pageToken := "";
    requests := [];
    ghost var left := pages;
    while true
      invariant EndsWithin(api, folderId, pageToken, left)
      invariant |requests| + left <= pages
      invariant Midway(api, folderId, requests, pageToken)
      invariant allFiles == Gathered(api, requests)
      decreases left
    {
      var request := BuildRequest(folderId, pageToken);
      Advance(api, folderId, requests, pageToken);
      requests := requests + [request];
      var data := api(request);
      if data.Failure? {
        return [], requests;
      }
      allFiles := allFiles + PageFiles(data);
      pageToken := NextToken(data);
      if pageToken == "" {
        break;
      }
      left := left - 1;
    }
    images := Normalize(allFiles);
  }

  /** The state between two requests: nothing sent yet, or a linked conversation whose last page handed over `pageToken`. */
  predicate Midway(api: Request -> Response, folderId: string, rs: seq<Request>, pageToken: string)
  {
    if rs == [] then pageToken == ""
    else
      && Linked(api, folderId, rs)
      && api(rs[|rs| - 1]).Page?
      && NextToken(api(rs[|rs| - 1])) == pageToken
      && pageToken != ""
  }

  /** Sending the request for `pageToken` extends the conversation by one linked request and its page. */
  lemma Advance(api: Request -> Response, folderId: string, rs: seq<Request>, pageToken: string)
    requires Midway(api, folderId, rs, pageToken)
    ensures var next := BuildRequest(folderId, pageToken);
      var rs' := rs + [next];
      && Linked(api, folderId, rs')
      && rs'[|rs'| - 1] == next
      && Gathered(api, rs') == Gathered(api, rs) + PageFiles(api(next))
      && (Stops(api(next)) ==> IsListingTrace(api, folderId, rs'))
      && (!Stops(api(next)) ==> Midway(api, folderId, rs', NextToken(api(next))))
  {
    var next := BuildRequest(folderId, pageToken);
    if rs != [] {
      assert Continues(api, folderId, rs[|rs| - 1], next);
    }
    LinkedStep(api, folderId, rs, next);
    GatheredStep(api, rs, next);
  }

  /** One more request keeps a conversation linked: the first one is the filter request, a later one follows the last cursor. */
  lemma LinkedStep(api: Request -> Response, folderId: string, rs: seq<Request>, next: Request)
    requires rs == [] ==> next == BuildRequest(folderId, "")
    requires rs != [] ==> Linked(api, folderId, rs) && Continues(api, folderId, rs[|rs| - 1], next)
    ensures Linked(api, folderId, rs + [next])
  {
    var rs' := rs + [next];
    assert rs'[|rs'| - 1] == next;
    forall k | 0 <= k < |rs'| - 1 ensures Continues(api, folderId, rs'[k], rs'[k + 1]) {
      assert rs'[k] == rs[k];
      if k + 1 < |rs| {
        assert rs'[k + 1] == rs[k + 1];
      }
    }
  }

  /** One more request adds its page's files at the end. */
  lemma GatheredStep(api: Request -> Response, rs: seq<Request>, next: Request)
    ensures Gathered(api, rs + [next]) == Gathered(api, rs) + PageFiles(api(next))
  {
    assert (rs + [next])[..|rs|] == rs;
  }

  // ---------------------------------------------------------------------------
  // Properties
  // ---------------------------------------------------------------------------

  /** Only the first request carries the folder filter; every later one carries a non-empty cursor and no filter. */
  lemma OnlyFirstRequestFilters(api: Request -> Response, folderId: string, rs: seq<Request>)
    requires Linked(api, folderId, rs)
    ensures rs[0].q == Some(FolderQuery(folderId)) && rs[0].pageToken == None
    ensures forall k :: 0 < k < |rs| ==> rs[k].q == None && rs[k].pageToken.Some? && rs[k].pageToken.value != ""
    ensures forall k :: 0 <= k < |rs| ==> rs[k].fields == Fields && rs[k].pageSize == PageSize && rs[k].orderBy == OrderBy
  {
    forall k | 0 < k < |rs|
      ensures rs[k].q == None && rs[k].pageToken.Some? && rs[k].pageToken.value != ""
    {
      assert Continues(api, folderId, rs[k - 1], rs[k]);
    }
    forall k | 0 <= k < |rs|
      ensures rs[k].fields == Fields && rs[k].pageSize == PageSize && rs[k].orderBy == OrderBy
    {
      if k > 0 {
        assert Continues(api, folderId, rs[k - 1], rs[k]);
      }
    }
  }

  /** Two linked conversations agree on every request they both contain. */
  lemma {:induction false} LinkedAgree(api: Request -> Response, folderId: string, a: seq<Request>, b: seq<Request>, k: nat)
    requires Linked(api, folderId, a) && Linked(api, folderId, b)
    requires k < |a| && k < |b|
    ensures a[k] == b[k]
  {
    if k > 0 {
      LinkedAgree(api, folderId, a, b, k - 1);
      assert Continues(api, folderId, a[k - 1], a[k]);
      assert Continues(api, folderId, b[k - 1], b[k]);
    }
  }

  /** A linked conversation shorter than another one has not reached a stopping response. */
  lemma ShorterLinkedContinues(api: Request -> Response, folderId: string, a: seq<Request>, b: seq<Request>)
    requires Linked(api, folderId, a) && Linked(api, folderId, b)
    requires |a| < |b|
    ensures !Stops(api(a[|a| - 1]))
  {
    LinkedAgree(api, folderId, a, b, |a| - 1);
    assert Continues(api, folderId, b[|a| - 1], b[|a|]);
  }

  /** The requests the resolver sends are determined by the API's answers alone. */
  lemma ListingTraceUnique(api: Request -> Response, folderId: string, a: seq<Request>, b: seq<Request>)
    requires IsListingTrace(api, folderId, a) && IsListingTrace(api, folderId, b)
    ensures a == b
  {
    if |a| < |b| {
      ShorterLinkedContinues(api, folderId, a, b);
      assert false;
    } else if |b| < |a| {
      ShorterLinkedContinues(api, folderId, b, a);
      assert false;
    } else {
      forall k | 0 <= k < |a| ensures a[k] == b[k] {
        LinkedAgree(api, folderId, a, b, k);
      }
    }
  }

  /**
   * An HTTP error whose body is JSON does not empty the result: after a first page of
   * `files` with a cursor, an error page ends the listing, and every complete conversation
   * (so the one the resolver holds) yields the images of `files`.
   */
  lemma ErrorPageKeepsEarlierPages(api: Request -> Response, folderId: string, files: seq<GoogleFile>, token: string)
    requires token != ""
    requires api(BuildRequest(folderId, "")) == Page(Some(files), Some(token))
    requires api(BuildRequest(folderId, token)) == Page(None, None)
    ensures forall rs :: IsListingTrace(api, folderId, rs) ==>
      api(rs[|rs| - 1]).Page? && Normalize(Gathered(api, rs)) == Normalize(files)
  {
    var trace := [BuildRequest(folderId, ""), BuildRequest(folderId, token)];
    assert Continues(api, folderId, trace[0], trace[1]);
    assert IsListingTrace(api, folderId, trace);
    assert Gathered(api, trace[..1]) == files;
    assert Gathered(api, trace) == files;
    forall rs | IsListingTrace(api, folderId, rs)
      ensures api(rs[|rs| - 1]).Page? && Normalize(Gathered(api, rs)) == Normalize(files)
    {
      ListingTraceUnique(api, folderId, rs, trace);
    }
  }

  /** Gathering is a concatenation over the pages: splitting the requests splits the files. */
  lemma {:induction false} GatheredAppend(api: Request -> Response, a: seq<Request>, b: seq<Request>)
    ensures Gathered(api, a + b) == Gathered(api, a) + Gathered(api, b)
    decreases |b|
  {
    if b == [] {
      assert a + b == a;
    } else {
      var b' := b[..|b| - 1];
      var last := PageFiles(api(b[|b| - 1]));
      assert (a + b)[..|a + b| - 1] == a + b';
      assert (a + b)[|a + b| - 1] == b[|b| - 1];
      assert Gathered(api, a + b) == Gathered(api, a + b') + last;
      GatheredAppend(api, a, b');
      assert Gathered(api, a) + Gathered(api, b') + last == Gathered(api, a) + (Gathered(api, b') + last);
    }
  }

  /** The result is the images of the thumbnailed files of each part, in order: filtering keeps order. */
  lemma {:induction false} NormalizeAppend(a: seq<GoogleFile>, b: seq<GoogleFile>)
    ensures Normalize(a + b) == Normalize(a) + Normalize(b)
  {
    if a == [] {
      assert a + b == b;
    } else {
      var head := if HasThumbnail(a[0]) then [ToImage(a[0])] else [];
      assert (a + b)[0] == a[0];
      assert (a + b)[1..] == a[1..] + b;
      assert Normalize(a + b) == head + Normalize(a[1..] + b);
      NormalizeAppend(a[1..], b);
      assert head + (Normalize(a[1..]) + Normalize(b)) == (head + Normalize(a[1..])) + Normalize(b);
    }
  }

  /** Every image is made from a listed file that has a thumbnail. */
  lemma {:induction false} NormalizeFromThumbnailed(files: seq<GoogleFile>)
    ensures forall img :: img in Normalize(files) ==> exists f :: f in files && HasThumbnail(f) && img == ToImage(f)
  {
    if files != [] {
      NormalizeFromThumbnailed(files[1..]);
      assert forall f :: f in files[1..] ==> f in files;
    }
  }

  /** When every file has a thumbnail, the i-th image is made from the i-th file. */
  lemma {:induction false} NormalizeKeepsAll(files: seq<GoogleFile>)
    requires forall i :: 0 <= i < |files| ==> HasThumbnail(files[i])
    ensures |Normalize(files)| == |files|
    ensures forall i :: 0 <= i < |files| ==> Normalize(files)[i] == ToImage(files[i])
  {
    if files != [] {
      NormalizeKeepsAll(files[1..]);
    }
  }

  /** Files without a thumbnail produce no image at all. */
  lemma {:induction false} NormalizeDropsAll(files: seq<GoogleFile>)
    requires forall i :: 0 <= i < |files| ==> !HasThumbnail(files[i])
    ensures Normalize(files) == []
  {
    if files != [] {
      NormalizeDropsAll(files[1..]);
    }
  }

  /** Behind a prefix without a size parameter, `=s3000` is the leftmost size parameter. */
  lemma HighResParamFirst(pre: string, rest: string)
    requires forall m :: !SizeParamAt(pre, m)
    ensures FindSizeParam(pre + HighResSize + rest, 0) == Some(|pre|)
  {
    var s := pre + HighResSize + rest;
    var n := |pre|;
    assert s[n] == '=' && s[n + 1] == 's' && s[n + 2] == '3';
    forall m | 0 <= m < n ensures !SizeParamAt(s, m) {
      if m + 2 < n {
        assert !SizeParamAt(pre, m);
        assert s[m] == pre[m] && s[m + 1] == pre[m + 1] && s[m + 2] == pre[m + 2];
      } else if m + 1 == n {
        assert s[m + 1] == '=';
      } else {
        assert s[m + 2] == '=';
      }
    }
    assert SizeParamAt(s, n);
  }

  /** A digit run is pinned down by its digits and the non-digit (or end) that follows them. */
  lemma {:induction false} DigitRunIs(s: string, j: nat, k: nat)
    requires j + k <= |s|
    requires forall m :: j <= m < j + k ==> IsDigit(s[m])
    requires j + k == |s| || !IsDigit(s[j + k])
    ensures DigitRun(s, j) == k
    decreases k
  {
    if k > 0 {
      DigitRunIs(s, j + 1, k - 1);
    }
  }

  /** The part of a link before its leftmost size parameter holds none. */
  lemma PrefixHasNoParam(link: string, i: nat)
    requires FindSizeParam(link, 0) == Some(i)
    ensures i <= |link|
    ensures forall m :: !SizeParamAt(link[..i], m)
  {
    forall m ensures !SizeParamAt(link[..i], m) {
      if 0 <= m && m + 2 < i {
        assert !SizeParamAt(link, m);
        assert link[..i][m] == link[m] && link[..i][m + 1] == link[m + 1] && link[..i][m + 2] == link[m + 2];
      }
    }
  }

  /** The digits of `=s3000`, followed by a non-digit or the end, form a run of four. */
  lemma HighResRun(pre: string, rest: string)
    requires rest == [] || !IsDigit(rest[0])
    ensures DigitRun(pre + HighResSize + rest, |pre| + 2) == 4
  {
    var s := pre + HighResSize + rest;
    var n := |pre|;
    assert forall m :: n + 2 <= m < n + 6 ==> s[m] == HighResSize[m - n];
    assert n + 6 == |s| || s[n + 6] == rest[0];
    DigitRunIs(s, n + 2, 4);
  }

  /** The rewrite at a known leftmost parameter with a known digit run. */
  lemma RewriteAt(s: string, i: nat, k: nat)
    requires FindSizeParam(s, 0) == Some(i) && DigitRun(s, i + 2) == k
    ensures RewriteSize(s) == s[..i] + HighResSize + s[i + 2 + k..]
  {
  }

  /** After the rewrite the leftmost size parameter sits where the old one did and reads `=s3000`. */
  lemma RewriteSizeSetsHighRes(link: string, i: nat)
    requires FindSizeParam(link, 0) == Some(i)
    ensures var src := RewriteSize(link);
      && src == link[..i] + HighResSize + link[i + 2 + DigitRun(link, i + 2)..]
      && FindSizeParam(src, 0) == Some(i)
      && DigitRun(src, i + 2) == 4
  {
    var k := DigitRun(link, i + 2);
    var pre := link[..i];
    var rest := link[i + 2 + k..];
    RewriteAt(link, i, k);
    PrefixHasNoParam(link, i);
    HighResParamFirst(pre, rest);
    assert rest == [] || rest[0] == link[i + 2 + k];
    HighResRun(pre, rest);
  }

  /** Rewriting an already rewritten link changes nothing. */
  lemma RewriteSizeIdempotent(link: string)
    ensures RewriteSize(RewriteSize(link)) == RewriteSize(link)
  {
    match FindSizeParam(link, 0)
    case None =>
    case Some(i) =>
      RewriteSizeSetsHighRes(link, i);
      var src := RewriteSize(link);
      RewriteAt(src, i, 4);
      var pre := link[..i];
      var rest := link[i + 2 + DigitRun(link, i + 2)..];
      assert src[..i] == pre;
      assert src[i + 6..] == rest;
  }

  /** Only one position of a name can start its extension. */
  lemma ExtensionUnique(name: string, p: int, q: int)
    requires ExtensionAt(name, p) && ExtensionAt(name, q)
    ensures p == q
  {
  }

  /** The alt text on typical names: the last extension goes, a bare trailing dot stays. */
  lemma AltTextExamples()
    ensures AltText(Some("photo.jpg")) == "photo"
    ensures AltText(Some("archive.tar.gz")) == "archive.tar"
    ensures AltText(Some("file.")) == "file."
    ensures AltText(Some(".hidden")) == ""
    ensures AltText(Some("v1.0/raw")) == "v1.0/raw"
    ensures AltText(Some("")) == Untitled && AltText(None) == Untitled
  {
    var a := "photo.jpg";
    assert ExtensionAt(a, 5);
    ExtensionUniqueAt(a, 5);
    assert a[..5] == "photo";
    var b := "archive.tar.gz";
    assert ExtensionAt(b, 11);
    ExtensionUniqueAt(b, 11);
    assert b[..11] == "archive.tar";
    var c := "file.";
    assert FindExtension(c, 4) == None;
    var d := ".hidden";
    assert ExtensionAt(d, 0);
    ExtensionUniqueAt(d, 0);
    var e := "v1.0/raw";
    assert FindExtension(e, 4) == None;
    assert FindExtension(e, 5) == None;
    assert FindExtension(e, 6) == None;
    assert FindExtension(e, 7) == None;
  }

  /** With a known extension start, the stripped name is the part before it. */
  lemma ExtensionUniqueAt(name: string, p: nat)
    requires ExtensionAt(name, p)
    ensures StripExtension(name) == name[..p]
  {
    var r := StripExtension(name);
    ExtensionUnique(name, p, |r|);
  }
}
