/**
 * A backend made of two tables, answering the two queries the gallery
 * issues: the events of one company that are active, ascending by sort
 * order; and the images of one event, ascending by sort order. Each query
 * may fail. The ordering is a stable insertion sort; a database may break
 * ties differently, and nothing proved below depends on how ties fall.
 */
module GalleryStore {
  import opened Wrappers
  import opened Gallery

  // ---------------------------------------------------------------------
  // Filtering and ordering rows
  // ---------------------------------------------------------------------

  predicate SortedBy<T>(rows: seq<T>, key: T -> int)
  {
    forall i, j | 0 <= i < j < |rows| :: key(rows[i]) <= key(rows[j])
  }

  /** The rows satisfying `keep`, in table order (the equality filters of a query). */
  function Where<T(==)>(rows: seq<T>, keep: T -> bool): (r: seq<T>)
    ensures |r| <= |rows|
    ensures forall x | x in r :: x in rows && keep(x)
    ensures forall x | x in rows && keep(x) :: x in r
  {
    if rows == [] then []
    else if keep(rows[0]) then [rows[0]] + Where(rows[1..], keep)
    else Where(rows[1..], keep)
  }

  /** A row occurs in the filtered rows as often as in the table if it is kept, and never otherwise. */
  lemma {:induction false} WhereCounts<T>(rows: seq<T>, keep: T -> bool, x: T)
    ensures multiset(Where(rows, keep))[x] == if keep(x) then multiset(rows)[x] else 0
  {
    if rows != [] {
      WhereCounts(rows[1..], keep, x);
      assert rows == [rows[0]] + rows[1..];
    }
  }

  /** In rows ascending by `key`, the first row has the least key. */
  lemma SortedHeadIsLeast<T>(rows: seq<T>, key: T -> int, y: T)
    requires SortedBy(rows, key) && y in rows
    ensures key(rows[0]) <= key(y)
  {
    var j :| 0 <= j < |rows| && rows[j] == y;
    if j > 0 {
      assert key(rows[0]) <= key(rows[j]);
    }
  }

  /** Place one row into rows ascending by `key`: before the first row whose key is not smaller. */
  function Insert<T>(x: T, rows: seq<T>, key: T -> int): seq<T>
  {
    if rows == [] || key(x) <= key(rows[0]) then [x] + rows
    else [rows[0]] + Insert(x, rows[1..], key)
  }

  lemma {:induction false} InsertPermutes<T>(x: T, rows: seq<T>, key: T -> int)
    ensures multiset(Insert(x, rows, key)) == multiset(rows) + multiset{x}
  {
    if rows != [] && key(x) > key(rows[0]) {
      InsertPermutes(x, rows[1..], key);
      assert rows == [rows[0]] + rows[1..];
    }
  }

  /** A row no greater than every row of a sorted run can go in front of it. */
  lemma ConsKeepsSorted<T>(head: T, rows: seq<T>, key: T -> int)
    requires SortedBy(rows, key)
    requires forall i | 0 <= i < |rows| :: key(head) <= key(rows[i])
    ensures SortedBy([head] + rows, key)
  {
    var r := [head] + rows;
    forall i, j | 0 <= i < j < |r| ensures key(r[i]) <= key(r[j]) {
      assert r[j] == rows[j - 1];
      if i > 0 {
        assert r[i] == rows[i - 1];
      }
    }
  }

  lemma {:induction false} InsertKeepsSorted<T>(x: T, rows: seq<T>, key: T -> int)
    requires SortedBy(rows, key)
    ensures SortedBy(Insert(x, rows, key), key)
  {
    if rows == [] || key(x) <= key(rows[0]) {
      forall i | 0 <= i < |rows| ensures key(x) <= key(rows[i]) {
        SortedHeadIsLeast(rows, key, rows[i]);
      }
      ConsKeepsSorted(x, rows, key);
    } else {
      var tail := Insert(x, rows[1..], key);
      InsertKeepsSorted(x, rows[1..], key);
      InsertPermutes(x, rows[1..], key);
      assert rows == [rows[0]] + rows[1..];
      forall i | 0 <= i < |tail| ensures key(rows[0]) <= key(tail[i]) {
        assert tail[i] in multiset(tail);
        if tail[i] != x {
          assert tail[i] in rows;
          SortedHeadIsLeast(rows, key, tail[i]);
        }
      }
      ConsKeepsSorted(rows[0], tail, key);
    }
  }

  /** The rows ascending by `key` (the `order(..., { ascending: true })` of a query). */
  function OrderBy<T>(rows: seq<T>, key: T -> int): (r: seq<T>)
    ensures SortedBy(r, key)
    ensures multiset(r) == multiset(rows)
  {
    if rows == [] then []
    else
      var sortedTail := OrderBy(rows[1..], key);
      InsertKeepsSorted(rows[0], sortedTail, key);
      InsertPermutes(rows[0], sortedTail, key);
      assert rows == [rows[0]] + rows[1..];
      Insert(rows[0], sortedTail, key)
  }

  // ---------------------------------------------------------------------
  // The backend
  // ---------------------------------------------------------------------

  datatype Backend = Backend(
    eventRows: seq<GalleryEvent>,       // the gallery events table
    imageRows: seq<GalleryImage>,       // the gallery images table
    eventsError: Option<string>,        // the events query fails with this error
    failingImageQueries: set<string>,   // event ids whose image query fails
    sign: SignRequest -> SignResponse)  // the storage signer

  /** The filters and sort keys of the two queries. */
  function ActiveEventOf(company: GalleryCompany): GalleryEvent -> bool
  {
    (e: GalleryEvent) => e.company == company && e.isActive
  }

  function ImageOfEvent(eventId: string): GalleryImage -> bool
  {
    (img: GalleryImage) => img.eventId == eventId
  }

  function EventSortOrder(e: GalleryEvent): int { e.sortOrder }

  function ImageSortOrder(img: GalleryImage): int { img.sortOrder }

  /** The events query: `company` equal, `is_active` true, ascending `sort_order`. */
  function SelectEvents(rows: seq<GalleryEvent>, company: GalleryCompany): (r: seq<GalleryEvent>)
    ensures SortedBy(r, EventSortOrder)
    ensures forall e :: multiset(r)[e] == if e.company == company && e.isActive then multiset(rows)[e] else 0
    ensures forall e :: e in r <==> e in rows && e.company == company && e.isActive
  {
    var selected := Where(rows, ActiveEventOf(company));
    var r := OrderBy(selected, EventSortOrder);
    assert forall e :: multiset(r)[e] == if e.company == company && e.isActive then multiset(rows)[e] else 0 by {
      forall e ensures multiset(r)[e] == if e.company == company && e.isActive then multiset(rows)[e] else 0 {
        WhereCounts(rows, ActiveEventOf(company), e);
        assert ActiveEventOf(company)(e) <==> e.company == company && e.isActive;
      }
    }
    assert forall e :: e in r <==> e in rows && e.company == company && e.isActive by {
      forall e ensures e in r <==> e in rows && e.company == company && e.isActive {
        assert e in r <==> multiset(r)[e] > 0;
        assert e in rows <==> multiset(rows)[e] > 0;
      }
    }
    r
  }

  /** The images query: `event_id` equal, ascending `sort_order`. */
  function SelectImages(rows: seq<GalleryImage>, eventId: string): (r: seq<GalleryImage>)
    ensures SortedBy(r, ImageSortOrder)
    ensures forall img :: multiset(r)[img] == if img.eventId == eventId then multiset(rows)[img] else 0
    ensures forall img :: img in r <==> img in rows && img.eventId == eventId
  {
    var selected := Where(rows, ImageOfEvent(eventId));
    var r := OrderBy(selected, ImageSortOrder);
    assert forall img :: multiset(r)[img] == if img.eventId == eventId then multiset(rows)[img] else 0 by {
      forall img ensures multiset(r)[img] == if img.eventId == eventId then multiset(rows)[img] else 0 {
        WhereCounts(rows, ImageOfEvent(eventId), img);
        assert ImageOfEvent(eventId)(img) <==> img.eventId == eventId;
      }
    }
    assert forall img :: img in r <==> img in rows && img.eventId == eventId by {
      forall img ensures img in r <==> img in rows && img.eventId == eventId {
        assert img in r <==> multiset(r)[img] > 0;
        assert img in rows <==> multiset(rows)[img] > 0;
      }
    }
    r
  }

  function EventsQuery(b: Backend): GalleryCompany -> QueryResponse<GalleryEvent>
  {
    (company: GalleryCompany) =>
      if b.eventsError.Some? then QueryResponse(None, b.eventsError)
      else QueryResponse(Some(SelectEvents(b.eventRows, company)), None)
  }

  function ImagesQuery(b: Backend): string -> QueryResponse<GalleryImage>
  {
    (eventId: string) =>
      if eventId in b.failingImageQueries then QueryResponse(None, Some("image query failed"))
      else QueryResponse(Some(SelectImages(b.imageRows, eventId)), None)
  }

  /** The events the gallery fetches from this backend for `company`. */
  function FetchFrom(b: Backend, company: GalleryCompany): seq<GalleryEventWithImages>
  {
    GetGalleryEvents(company, EventsQuery(b), ImagesQuery(b))
  }

  // ---------------------------------------------------------------------
  // What the fetched events are
  // ---------------------------------------------------------------------

  /** Every fetched event is an active event of the company, and they ascend by sort order. */
  lemma FetchedEventsAreActiveAndSorted(b: Backend, company: GalleryCompany)
    ensures var r := FetchFrom(b, company);
      (forall i | 0 <= i < |r| ::
         r[i].event in b.eventRows && r[i].event.company == company && r[i].event.isActive) &&
      (forall i, j | 0 <= i < j < |r| :: r[i].event.sortOrder <= r[j].event.sortOrder)
  {
    var r := FetchFrom(b, company);
    if b.eventsError.None? {
      var rows := SelectEvents(b.eventRows, company);
      assert EventsQuery(b)(company).data == Some(rows);
      if |rows| > 0 {
        forall i | 0 <= i < |r|
          ensures r[i].event in b.eventRows && r[i].event.company == company && r[i].event.isActive
        {
          assert r[i].event == rows[i];
          assert rows[i] in rows;
        }
        forall i, j | 0 <= i < j < |r| ensures r[i].event.sortOrder <= r[j].event.sortOrder {
          assert r[i].event == rows[i] && r[j].event == rows[j];
        }
      }
    }
  }

  /** The event rows of fetched events, in order. */
  function EventsOf(fetched: seq<GalleryEventWithImages>): (events: seq<GalleryEvent>)
    ensures |events| == |fetched|
    ensures forall i | 0 <= i < |events| :: events[i] == fetched[i].event
  {
    if fetched == [] then [] else [fetched[0].event] + EventsOf(fetched[1..])
  }

  /**
   * When the events query succeeds, no active event of the company is missed,
   * and each is fetched as many times as the table holds it.
   */
  lemma FetchedEventsAreComplete(b: Backend, company: GalleryCompany, e: GalleryEvent)
    requires b.eventsError.None?
    ensures multiset(EventsOf(FetchFrom(b, company)))[e]
         == if e.company == company && e.isActive then multiset(b.eventRows)[e] else 0
    ensures e in b.eventRows && e.company == company && e.isActive ==>
              exists i :: 0 <= i < |FetchFrom(b, company)| && FetchFrom(b, company)[i].event == e
  {
    var rows := SelectEvents(b.eventRows, company);
    assert EventsQuery(b)(company).data == Some(rows);
    var fetched := EventsOf(FetchFrom(b, company));
    assert fetched == rows;
    if e in b.eventRows && e.company == company && e.isActive {
      var i :| 0 <= i < |rows| && rows[i] == e;
      assert FetchFrom(b, company)[i].event == e;
    }
  }

  /**
   * The images attached to each fetched event are exactly that event's image
   * rows, each as often as the table holds it, ascending by sort order; or
   * none when its image query failed.
   */
  lemma FetchedImagesBelongToTheirEvent(b: Backend, company: GalleryCompany)
    ensures var r := FetchFrom(b, company);
      forall i | 0 <= i < |r| ::
        (r[i].event.id in b.failingImageQueries ==> r[i].images == []) &&
        (r[i].event.id !in b.failingImageQueries ==>
           SortedBy(r[i].images, ImageSortOrder) &&
           (forall img :: multiset(r[i].images)[img]
                          == if img.eventId == r[i].event.id then multiset(b.imageRows)[img] else 0) &&
           forall img :: img in r[i].images <==> img in b.imageRows && img.eventId == r[i].event.id)
  {
    var r := FetchFrom(b, company);
    if b.eventsError.None? {
      var rows := SelectEvents(b.eventRows, company);
      assert EventsQuery(b)(company).data == Some(rows);
      forall i | 0 <= i < |r|
        ensures r[i].images == ImagesOrEmpty(ImagesQuery(b)(r[i].event.id))
      {
        assert r[i].event == rows[i];
      }
    }
  }

  /** A failing events query, or a company with no active events, gives an empty gallery. */
  lemma NoEventsGiveEmptyGallery(b: Backend, company: GalleryCompany)
    requires b.eventsError.Some? || forall e | e in b.eventRows :: e.company != company || !e.isActive
    ensures FetchFrom(b, company) == []
  {
    if b.eventsError.None? {
      var rows := SelectEvents(b.eventRows, company);
      assert EventsQuery(b)(company).data == Some(rows);
    }
  }
}
