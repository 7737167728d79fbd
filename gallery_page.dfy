/**
 * The gallery page: fetch the events of the "gulf-connect" company, then
 * shape them for display. The lemmas state what the whole pipeline yields
 * on concrete backends.
 */
module GalleryPage {
  import opened Wrappers
  import opened Gallery
  import opened GalleryStore

  /**
   * What the page renders. Events keep the order of the events query; each
   * shows its id and title, its description and date (or "" when absent),
   * and one URL per image of its own image query, in that query's order; a
   * failing events query renders nothing.
   */
  function GalleryPageEvents(
    base: string,
    eventsQuery: GalleryCompany -> QueryResponse<GalleryEvent>,
    imagesQuery: string -> QueryResponse<GalleryImage>,
    sign: SignRequest -> SignResponse): (r: seq<DisplayEvent>)
    ensures eventsQuery(GulfConnect).error.Some? || eventsQuery(GulfConnect).data.None? ==> r == []
    ensures eventsQuery(GulfConnect).error.None? && eventsQuery(GulfConnect).data.Some? ==>
              var rows := eventsQuery(GulfConnect).data.value;
              |r| == |rows| &&
              forall i | 0 <= i < |r| ::
                r[i].id == rows[i].id && r[i].title == rows[i].title &&
                r[i].description == rows[i].description.GetOr("") &&
                r[i].date == rows[i].eventDate.GetOr("") &&
                |r[i].images| == |ImagesOrEmpty(imagesQuery(rows[i].id))| &&
                forall k | 0 <= k < |r[i].images| ::
                  r[i].images[k] == GalleryImageSignedUrl(base, sign, ImagesOrEmpty(imagesQuery(rows[i].id))[k].storagePath)
  {
    var events := GetGalleryEvents(GulfConnect, eventsQuery, imagesQuery);
    TransformGalleryEventsForDisplay(base, sign, events)
  }

  /** The page over a table-backed backend. */
  function PageFrom(base: string, b: Backend): seq<DisplayEvent>
  {
    GalleryPageEvents(base, EventsQuery(b), ImagesQuery(b), b.sign)
  }

  // ---------------------------------------------------------------------
  // Scenarios
  // ---------------------------------------------------------------------

  const Launch: GalleryEvent :=
    GalleryEvent("e1", GulfConnect, "Launch", None, None, "launch", true, 1, "", "")

  const ImageA: GalleryImage := GalleryImage("a", "e1", "a.jpg", None, "e1/a.jpg", 1, "")
  const ImageB: GalleryImage := GalleryImage("b", "e1", "b.jpg", None, "e1/b.jpg", 2, "")

  /**
   * One active event with two images, stored out of order; signing works for
   * the first image and fails for the second. The page shows the event once,
   * with the signed URL of the first image followed by the public URL of the
   * second.
   */
  lemma LaunchScenario(base: string, sign: SignRequest -> SignResponse, signedA: string)
    requires signedA != ""
    requires sign(SignRequest(Bucket, "e1/a.jpg", SignedUrlExpiresIn)) == SignResponse(Some(signedA), None)
    requires sign(SignRequest(Bucket, "e1/b.jpg", SignedUrlExpiresIn)).error.Some?
    ensures PageFrom(base, Backend([Launch], [ImageB, ImageA], None, {}, sign))
         == [DisplayEvent("e1", "Launch", "", "", [signedA, GalleryImagePublicUrl(base, "e1/b.jpg")])]
  {
    var b := Backend([Launch], [ImageB, ImageA], None, {}, sign);
    ScenarioFetch(b);
    PageIsTransformOfFetch(base, b);
    ScenarioDisplay(base, sign, signedA);
  }

  lemma PageIsTransformOfFetch(base: string, b: Backend)
    ensures PageFrom(base, b) == TransformGalleryEventsForDisplay(base, b.sign, FetchFrom(b, GulfConnect))
  {
  }

  /** The scenario's display step: signed URL for the first image, public URL for the second. */
  lemma ScenarioDisplay(base: string, sign: SignRequest -> SignResponse, signedA: string)
    requires signedA != ""
    requires sign(SignRequest(Bucket, "e1/a.jpg", SignedUrlExpiresIn)) == SignResponse(Some(signedA), None)
    requires sign(SignRequest(Bucket, "e1/b.jpg", SignedUrlExpiresIn)).error.Some?
    ensures TransformGalleryEventsForDisplay(base, sign, [GalleryEventWithImages(Launch, [ImageA, ImageB])])
         == [DisplayEvent("e1", "Launch", "", "", [signedA, GalleryImagePublicUrl(base, "e1/b.jpg")])]
  {
    var withImages := GalleryEventWithImages(Launch, [ImageA, ImageB]);
    var urls := [signedA, GalleryImagePublicUrl(base, "e1/b.jpg")];
    assert ResolveImageUrls(base, sign, [ImageA, ImageB]) == urls;
    assert ToDisplayEvent(base, sign, withImages) == DisplayEvent("e1", "Launch", "", "", urls);
  }

  /** The scenario's fetch: the one event, carrying its two images in sort order. */
  lemma ScenarioFetch(b: Backend)
    requires b.eventRows == [Launch] && b.imageRows == [ImageB, ImageA]
    requires b.eventsError.None? && b.failingImageQueries == {}
    ensures FetchFrom(b, GulfConnect) == [GalleryEventWithImages(Launch, [ImageA, ImageB])]
  {
    ScenarioQueries();
    assert EventsQuery(b)(GulfConnect) == QueryResponse(Some([Launch]), None);
    assert ImagesQuery(b)("e1") == QueryResponse(Some([ImageA, ImageB]), None);
  }

  /** The scenario's two queries: the event alone, and its images ascending by sort order. */
  lemma ScenarioQueries()
    ensures SelectEvents([Launch], GulfConnect) == [Launch]
    ensures SelectImages([ImageB, ImageA], "e1") == [ImageA, ImageB]
  {
    assert Where([Launch], ActiveEventOf(GulfConnect)) == [Launch];
    assert [ImageB, ImageA][1..] == [ImageA];
    assert Where([ImageA], ImageOfEvent("e1")) == [ImageA];
    assert Where([ImageB, ImageA], ImageOfEvent("e1")) == [ImageB, ImageA];
    assert OrderBy([ImageA], ImageSortOrder) == [ImageA];
    assert OrderBy([ImageB, ImageA], ImageSortOrder) == [ImageA, ImageB];
  }

  /** A failing events query renders an empty gallery, whatever the tables hold. */
  lemma EventsQueryFailureScenario(base: string, b: Backend, message: string)
    requires b.eventsError == Some(message)
    ensures PageFrom(base, b) == []
  {
    assert EventsQuery(b)(GulfConnect).error.Some?;
  }
}
