/**
 * The gallery content pipeline: event and image records, the public and
 * signed image URLs, fetching a company's events with their images, and
 * shaping them for display.
 *
 * The backend is abstract: a query is a function returning the
 * `{ data, error }` pair the client library hands back, and the storage
 * signer is a function from the signing request to its response.
 */
module Gallery {
  import opened Wrappers

  // ---------------------------------------------------------------------
  // Records
  // ---------------------------------------------------------------------

  datatype GalleryCompany = RaxChennai | RaxEurope | GulfConnect

  datatype GalleryImage = GalleryImage(
    id: string,
    eventId: string,
    filename: string,
    originalFilename: Option<string>,
    storagePath: string,
    sortOrder: int,
    createdAt: string)

  datatype GalleryEvent = GalleryEvent(
    id: string,
    company: GalleryCompany,
    title: string,
    description: Option<string>,
    eventDate: Option<string>,
    slug: string,
    isActive: bool,
    sortOrder: int,
    createdAt: string,
    updatedAt: string)

  /** An event row spread together with its image rows. */
  datatype GalleryEventWithImages = GalleryEventWithImages(event: GalleryEvent, images: seq<GalleryImage>)

  /** The record the gallery grid renders. */
  datatype DisplayEvent = DisplayEvent(id: string, title: string, description: string, date: string, images: seq<string>)

  /** What a backend query hands back: rows (possibly null) and an error (possibly null). */
  datatype QueryResponse<T> = QueryResponse(data: Option<seq<T>>, error: Option<string>)

  /** The one request the storage signer is given: bucket, object path, lifetime in seconds. */
  datatype SignRequest = SignRequest(bucket: string, path: string, expiresIn: int)

  /** The signer's answer: `data?.signedUrl` (absent when data is null) and an error. */
  datatype SignResponse = SignResponse(signedUrl: Option<string>, error: Option<string>)

  const Bucket: string := "rax_landing_gallery"
  const SignedUrlExpiresIn: int := 3600

  /** The part of a public URL between the backend origin and the storage path. */
  const PublicUrlInfix: string := "/storage/v1/object/public/" + Bucket + "/"

  // ---------------------------------------------------------------------
  // Image URLs
  // ---------------------------------------------------------------------

  /** `getGalleryImagePublicUrl`: the origin, the public-object path of the bucket, then the storage path. */
  function GalleryImagePublicUrl(base: string, storagePath: string): (url: string)
    ensures |url| == |base| + |PublicUrlInfix| + |storagePath|
    ensures url[..|base|] == base
    ensures url[|base|..|base| + |PublicUrlInfix|] == PublicUrlInfix
    ensures url[|url| - |storagePath|..] == storagePath
  {
    var url := base + PublicUrlInfix + storagePath;
    assert url[..|base|] == base;
    assert url[|base|..|base| + |PublicUrlInfix|] == PublicUrlInfix;
    assert url[|url| - |storagePath|..] == storagePath;
    url
  }

  /** Spelled out: origin, "/storage/v1/object/public/rax_landing_gallery/", storage path. */
  lemma PublicUrlSpelledOut(base: string, storagePath: string)
    ensures GalleryImagePublicUrl(base, storagePath)
         == base + "/storage/v1/object/public/rax_landing_gallery/" + storagePath
  {
  }

  /** Distinct storage paths under one origin give distinct public URLs. */
  lemma PublicUrlInjective(base: string, p: string, q: string)
    requires GalleryImagePublicUrl(base, p) == GalleryImagePublicUrl(base, q)
    ensures p == q
  {
    var u := GalleryImagePublicUrl(base, p);
    assert |p| == |q|;
    assert p == u[|u| - |p|..] == q;
  }

  /** The signer answered with a usable URL: no error and a non-empty `signedUrl`. */
  predicate Signed(response: SignResponse)
  {
    response.error.None? && response.signedUrl.Some? && response.signedUrl.value != ""
  }

  /**
   * `getGalleryImageSignedUrl`: ask the signer for a one-hour URL for the
   * path in the gallery bucket; on an error or an empty answer, fall back
   * to the public URL. It never fails and never yields an empty URL.
   */
  function GalleryImageSignedUrl(base: string, sign: SignRequest -> SignResponse, storagePath: string): (url: string)
    ensures Signed(sign(SignRequest("rax_landing_gallery", storagePath, 3600))) ==>
              url == sign(SignRequest("rax_landing_gallery", storagePath, 3600)).signedUrl.value
    ensures !Signed(sign(SignRequest("rax_landing_gallery", storagePath, 3600))) ==>
              url == GalleryImagePublicUrl(base, storagePath)
    ensures url != ""
  {
    var response := sign(SignRequest(Bucket, storagePath, SignedUrlExpiresIn));
    if response.error.Some? || response.signedUrl.None? || response.signedUrl.value == "" then
      GalleryImagePublicUrl(base, storagePath)
    else
      response.signedUrl.value
  }

  /** The signer is consulted on one request only: two signers that agree on it resolve alike. */
  lemma SignedUrlDependsOnlyOnItsRequest(base: string, s1: SignRequest -> SignResponse, s2: SignRequest -> SignResponse, storagePath: string)
    requires s1(SignRequest(Bucket, storagePath, SignedUrlExpiresIn)) == s2(SignRequest(Bucket, storagePath, SignedUrlExpiresIn))
    ensures GalleryImageSignedUrl(base, s1, storagePath) == GalleryImageSignedUrl(base, s2, storagePath)
  {
  }

  // ---------------------------------------------------------------------
  // Fetching events with their images
  // ---------------------------------------------------------------------

  /** `images || []`: the rows of an image query, or none when it returned null (its error is ignored). */
  function ImagesOrEmpty(response: QueryResponse<GalleryImage>): (images: seq<GalleryImage>)
    ensures response.data.Some? ==> images == response.data.value
    ensures response.data.None? ==> images == []
  {
    response.data.GetOr([])
  }

  /** The per-event image fetch, mapped over the events in order. */
  function AttachImages(events: seq<GalleryEvent>, imagesQuery: string -> QueryResponse<GalleryImage>): (r: seq<GalleryEventWithImages>)
    ensures |r| == |events|
    ensures forall i | 0 <= i < |r| ::
              r[i].event == events[i] && r[i].images == ImagesOrEmpty(imagesQuery(events[i].id))
  {
    if events == [] then []
    else [GalleryEventWithImages(events[0], ImagesOrEmpty(imagesQuery(events[0].id)))]
         + AttachImages(events[1..], imagesQuery)
  }

  /**
   * `getGalleryEvents`: query the company's active events; an error, a null
   * answer or no rows give `[]`; otherwise every event, in the order
   * returned, carries the rows of its own image query (or none).
   */
  function GetGalleryEvents(
    company: GalleryCompany,
    eventsQuery: GalleryCompany -> QueryResponse<GalleryEvent>,
    imagesQuery: string -> QueryResponse<GalleryImage>): (r: seq<GalleryEventWithImages>)
    ensures eventsQuery(company).error.Some? ==> r == []
    ensures eventsQuery(company).data.None? || eventsQuery(company).data == Some([]) ==> r == []
    ensures eventsQuery(company).error.None? && eventsQuery(company).data.Some? ==>
              var rows := eventsQuery(company).data.value;
              |r| == |rows| &&
              forall i | 0 <= i < |r| ::
                r[i].event == rows[i] && r[i].images == ImagesOrEmpty(imagesQuery(rows[i].id))
  {
    var response := eventsQuery(company);
    if response.error.Some? then []
    else if response.data.None? || |response.data.value| == 0 then []
    else AttachImages(response.data.value, imagesQuery)
  }

  // ---------------------------------------------------------------------
  // Display transformation
  // ---------------------------------------------------------------------

  /** The resolved URL of every image, in order. */
  function ResolveImageUrls(base: string, sign: SignRequest -> SignResponse, images: seq<GalleryImage>): (urls: seq<string>)
    ensures |urls| == |images|
    ensures forall k | 0 <= k < |urls| ::
              urls[k] == GalleryImageSignedUrl(base, sign, images[k].storagePath) && urls[k] != ""
  {
    if images == [] then []
    else [GalleryImageSignedUrl(base, sign, images[0].storagePath)] + ResolveImageUrls(base, sign, images[1..])
  }

  /** One event for display: id and title copied, description and date defaulted to "". */
  function ToDisplayEvent(base: string, sign: SignRequest -> SignResponse, e: GalleryEventWithImages): (d: DisplayEvent)
    ensures d.id == e.event.id && d.title == e.event.title
    ensures e.event.description.Some? ==> d.description == e.event.description.value
    ensures e.event.description.None? ==> d.description == ""
    ensures e.event.eventDate.Some? ==> d.date == e.event.eventDate.value
    ensures e.event.eventDate.None? ==> d.date == ""
    ensures |d.images| == |e.images|
    ensures forall k | 0 <= k < |d.images| ::
              d.images[k] == GalleryImageSignedUrl(base, sign, e.images[k].storagePath)
  {
    DisplayEvent(
      e.event.id,
      e.event.title,
      e.event.description.GetOr(""),
      e.event.eventDate.GetOr(""),
      ResolveImageUrls(base, sign, e.images))
  }

  /** `transformGalleryEventsForDisplay`: every event for display, in order. */
  function TransformGalleryEventsForDisplay(base: string, sign: SignRequest -> SignResponse, events: seq<GalleryEventWithImages>): (r: seq<DisplayEvent>)
    ensures |r| == |events|
    ensures forall i | 0 <= i < |r| :: r[i] == ToDisplayEvent(base, sign, events[i])
  {
    if events == [] then []
    else [ToDisplayEvent(base, sign, events[0])] + TransformGalleryEventsForDisplay(base, sign, events[1..])
  }

  /**
   * Resolving the images of two consecutive runs separately and joining the
   * results gives the same list as resolving them together: the outcome
   * does not depend on how the concurrent resolutions are split up.
   */
  lemma {:induction false} ResolveImageUrlsSplit(base: string, sign: SignRequest -> SignResponse, a: seq<GalleryImage>, b: seq<GalleryImage>)
    ensures ResolveImageUrls(base, sign, a + b) == ResolveImageUrls(base, sign, a) + ResolveImageUrls(base, sign, b)
  {
    if a == [] {
      assert a + b == b;
    } else {
      assert (a + b)[1..] == a[1..] + b;
      ResolveImageUrlsSplit(base, sign, a[1..], b);
    }
  }

  /** The same for whole events: transforming two runs separately and joining them changes nothing. */
  lemma {:induction false} TransformSplit(base: string, sign: SignRequest -> SignResponse, a: seq<GalleryEventWithImages>, b: seq<GalleryEventWithImages>)
    ensures TransformGalleryEventsForDisplay(base, sign, a + b)
         == TransformGalleryEventsForDisplay(base, sign, a) + TransformGalleryEventsForDisplay(base, sign, b)
  {
    if a == [] {
      assert a + b == b;
    } else {
      assert (a + b)[1..] == a[1..] + b;
      TransformSplit(base, sign, a[1..], b);
    }
  }
}
