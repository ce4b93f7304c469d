/** Keyset pagination over a MongoDB collection: the strategy as it runs, and what a page is. */
module Pagination {
  import opened Wrappers
  import opened Values
  import opened Keys
  import opened Listings
  import opened Payloads
  import opened Queries

  /** The encoder; both ways it reads the clock. */
  datatype CursorCodec = CursorCodec(
    encode: (int, CursorPayload) -> Result<string, CursorError>,
    decode: (int, string) -> Result<CursorPayload, CursorError>)

  datatype Strategy = Strategy(base: Query, fields: seq<string>, codec: CursorCodec, dates: DateText)

  datatype Page = Page(items: seq<Document>, size: nat, next: Option<string>, prev: Option<string>)

  datatype Fetched = Fetched(processed: seq<Document>, hasExtra: bool, direction: Direction)

  // ----- What a page is -----

  /** Where a cursor points: nowhere yet, or strictly beyond a key. */
  datatype Position = Start | Beside(direction: Direction, key: seq<Value>)

  /** An empty cursor text is read like an absent one. */
  predicate Absent(cursor: Option<string>) {
    cursor.None? || cursor.value == ""
  }

  function Locate(st: Strategy, now: int, cursor: Option<string>): Result<Position, CursorError> {
    if Absent(cursor) then Ok(Start)
    else
      var payload :- st.codec.decode(now, cursor.value);
      var key :- CursorKey(payload.values, st.fields);
      Ok(Beside(payload.direction, key))
  }

  ghost predicate Selects(st: Strategy, at: Position, d: Document) {
    Matches(d, st.base) && (at.Beside? ==> Beyond(at.direction, d, st.fields, at.key))
  }

  ghost function Selected(st: Strategy, docs: set<Document>, at: Position): set<Document> {
    set d | d in docs && Selects(st, at, d)
  }

  ghost function Found(docs: set<Document>, q: Query): set<Document> {
    set d | d in docs && Matches(d, q)
  }

  /** The selected documents in descending key order. */
  ghost function Selection(st: Strategy, docs: set<Document>, at: Position): seq<Document>
    requires WellKeyed(docs, st.fields)
  {
    Listing(NEXT, st.fields, Selected(st, docs, at))
  }

  function Stringify(v: Value): Value {
    if v.ObjectId? then Text(v.oid) else v
  }

  function PayloadValues(d: Document, fields: seq<string>): map<string, Value> {
    map f | f in fields && f in d :: Stringify(d[f])
  }

  function Payload(st: Strategy, d: Document, dir: Direction): Result<CursorPayload, CursorError> {
    var values :- DecodeValues(st.dates, PayloadValues(d, st.fields));
    Ok(CursorPayload(1, values, dir, DESC, None))
  }

  function Link(st: Strategy, now: int, d: Document, dir: Direction): Result<Option<string>, CursorError> {
    var payload :- Payload(st, d, dir);
    var text :- st.codec.encode(now, payload);
    Ok(Some(text))
  }

  function NextLink(st: Strategy, now: int, f: Fetched): Result<Option<string>, CursorError> {
    if f.processed != [] && (f.direction == PREV || f.hasExtra)
    then Link(st, now, f.processed[|f.processed| - 1], NEXT) else Ok(None)
  }

  function PrevLink(st: Strategy, now: int, f: Fetched, cursor: Option<string>): Result<Option<string>, CursorError> {
    if f.processed != [] && cursor.Some? && (f.direction == NEXT || f.hasExtra)
    then Link(st, now, f.processed[0], PREV) else Ok(None)
  }

  function PageWith(st: Strategy, now: int, f: Fetched, size: nat, cursor: Option<string>): Result<Page, CursorError> {
    var next :- NextLink(st, now, f);
    var prev :- PrevLink(st, now, f, cursor);
    Ok(Page(f.processed, size, next, prev))
  }

  function DirectionOf(at: Position): Direction {
    if at.Beside? then at.direction else NEXT
  }

  /** The page of a request: the `size` selected documents nearest to the cursor, newest first. A link
      away from the cursor is offered when documents remain there; the link back, when there is a cursor. */
  ghost function PageOf(st: Strategy, now: int, docs: set<Document>, size: nat, cursor: Option<string>)
    : Result<Page, CursorError>
    requires WellKeyed(docs, st.fields)
  {
    var at :- Locate(st, now, cursor);
    var all := Selection(st, docs, at);
    PageWith(st, now, Fetched(Nearest(DirectionOf(at), all, size), |all| > size, DirectionOf(at)), size, cursor)
  }

  // ----- The strategy as it runs -----

  /** `find(query).sort(spec).limit(limit).to_list()` on a collection stored in any order. */
  method Find(docs: seq<Document>, query: Query, spec: SortSpec, limit: nat,
              ghost dir: Direction, ghost fields: seq<string>)
    returns (r: seq<Document>)
    requires WellKeyed(Elements(docs), fields) && spec == BuildSort(dir, fields)
    requires forall i, j | 0 <= i < j < |docs| :: docs[i] != docs[j]
    ensures var all := Listing(dir, fields, Found(Elements(docs), query));
            r == all[..Min(limit, |all|)]
  {
    var sorted: seq<Document> := [];
    for i := 0 to |docs|
      invariant Sorted(spec, sorted)
      invariant Elements(sorted) == Found(Elements(docs[..i]), query)
    {
      if Matches(docs[i], query) {
        assert docs[i] !in docs[..i];
        InsertIntoListing(dir, fields, Elements(docs), sorted, docs[i]);
        sorted := Insert(spec, sorted, docs[i]);
      }
      assert docs[..i + 1] == docs[..i] + [docs[i]];
    }
    assert docs[..|docs|] == docs;
    ListingSorts(dir, fields, Found(Elements(docs), query));
    SortedUnique(spec, sorted, Listing(dir, fields, Found(Elements(docs), query)));
    r := sorted[..Min(limit, |sorted|)];
  }

  /** `_build_query`: the base filter joined to the cursor's keyset query. */
  method BuildQuery(st: Strategy, now: int, cursor: Option<string>) returns (r: Result<Query, CursorError>)
    requires st.fields != []
    ensures r.Ok? <==> Locate(st, now, cursor).Ok?
    ensures r.Err? ==> r.error == Locate(st, now, cursor).error
    ensures r.Ok? ==> forall d: Document :: Matches(d, r.value) <==> Selects(st, Locate(st, now, cursor).value, d)
  {
    var filters: seq<Query> := [];
    if !IsEmpty(st.base) {
      filters := filters + [st.base];
    }
    if !Absent(cursor) {
      var payload :- st.codec.decode(now, cursor.value);
      var q :- BuildCursorQuery(payload.direction, payload.values, st.fields);
      filters := filters + [q];
    }
    if |filters| == 0 {
      return Ok(Fields(map[]));
    }
    if |filters| == 1 {
      return Ok(filters[0]);
    }
    r := Ok(And(filters));
    assert filters[0] == st.base;
    forall d: Document ensures Matches(d, r.value) <==> Matches(d, filters[0]) && Matches(d, filters[1]) {
    }
  }

  /** `_determine_direction`. */
  function DetermineDirection(st: Strategy, now: int, cursor: Option<string>): Result<Direction, CursorError> {
    if Absent(cursor) then Ok(NEXT)
    else
      var payload :- st.codec.decode(now, cursor.value);
      Ok(payload.direction)
  }

  /** `_fetch_documents`: one document more than the page, nearest to the cursor first. */
  method FetchDocuments(st: Strategy, now: int, docs: seq<Document>, query: Query, size: nat, cursor: Option<string>)
    returns (r: Result<Fetched, CursorError>)
    requires WellKeyed(Elements(docs), st.fields)
    requires forall i, j | 0 <= i < j < |docs| :: docs[i] != docs[j]
    ensures r.Ok? <==> DetermineDirection(st, now, cursor).Ok?
    ensures r.Err? ==> r.error == DetermineDirection(st, now, cursor).error
    ensures r.Ok? ==>
              var all := Listing(NEXT, st.fields, Found(Elements(docs), query));
              var direction := DetermineDirection(st, now, cursor).value;
              r.value == Fetched(Nearest(direction, all, size), |all| > size, direction)
  {
    var direction :- DetermineDirection(st, now, cursor);
    var raw := Find(docs, query, BuildSort(direction, st.fields), size + 1, direction, st.fields);
    var hasExtra := |raw| > size;
    var processed := raw[..Min(size, |raw|)];
    ghost var all := Listing(direction, st.fields, Found(Elements(docs), query));
    assert hasExtra == (|all| > size) && processed == all[..Min(size, |all|)];
    if direction == PREV {
      NearestReversed(Listing(NEXT, st.fields, Found(Elements(docs), query)), size);
      ListingReverses(st.fields, Found(Elements(docs), query));
      processed := Reverse(processed);
    }
    r := Ok(Fetched(processed, hasExtra, direction));
  }

  /** `build_payload`: the sort fields the document has, ObjectIds as text. */
  method BuildPayload(st: Strategy, d: Document, dir: Direction) returns (r: Result<CursorPayload, CursorError>)
    ensures r == Payload(st, d, dir)
  {
    var values: map<string, Value> := map[];
    for i := 0 to |st.fields|
      invariant values == PayloadValues(d, st.fields[..i])
    {
      var field := st.fields[i];
      if field in d {
        values := values[field := Stringify(d[field])];
      }
      assert st.fields[..i + 1] == st.fields[..i] + [field];
    }
    assert st.fields[..|st.fields|] == st.fields;
    var decoded :- DecodeValues(st.dates, values);
    r := Ok(CursorPayload(1, decoded, dir, DESC, None));
  }

  method BuildLink(st: Strategy, now: int, d: Document, dir: Direction) returns (r: Result<Option<string>, CursorError>)
    ensures r == Link(st, now, d, dir)
  {
    var payload :- BuildPayload(st, d, dir);
    var text :- st.codec.encode(now, payload);
    r := Ok(Some(text));
  }

  /** `_build_next_cursor`. */
  method BuildNextCursor(st: Strategy, now: int, f: Fetched) returns (r: Result<Option<string>, CursorError>)
    ensures r == NextLink(st, now, f)
  {
    if f.processed == [] {
      return Ok(None);
    }
    if f.direction == NEXT {
      if f.hasExtra {
        r := BuildLink(st, now, f.processed[|f.processed| - 1], NEXT);
        return;
      }
      return Ok(None);
    }
    r := BuildLink(st, now, f.processed[|f.processed| - 1], NEXT);
  }

  /** `_build_prev_cursor`. Unlike the query, it takes an empty cursor text as a cursor. */
  method BuildPrevCursor(st: Strategy, now: int, f: Fetched, original: Option<string>)
    returns (r: Result<Option<string>, CursorError>)
    ensures r == PrevLink(st, now, f, original)
  {
    if f.processed == [] || original.None? {
      return Ok(None);
    }
    if f.direction == NEXT {
      r := BuildLink(st, now, f.processed[0], PREV);
      return;
    }
    if f.hasExtra {
      r := BuildLink(st, now, f.processed[0], PREV);
      return;
    }
    r := Ok(None);
  }

  /** `paginate`: through the generated query, one extra document and the reversal, it answers the page
      that the cursor's key alone determines. */
  method Paginate(st: Strategy, now: int, docs: seq<Document>, size: nat, cursor: Option<string>)
    returns (r: Result<Page, CursorError>)
    requires st.fields != [] && size >= 1
    requires WellKeyed(Elements(docs), st.fields)
    requires forall i, j | 0 <= i < j < |docs| :: docs[i] != docs[j]
    ensures r == PageOf(st, now, Elements(docs), size, cursor)
  {
    var query :- BuildQuery(st, now, cursor);
    ghost var at := Locate(st, now, cursor).value;
    assert Found(Elements(docs), query) == Selected(st, Elements(docs), at);
    var answer := FetchDocuments(st, now, docs, query, size, cursor);
    var fetched := answer.value;  // the query has decoded the same cursor without error
    assert fetched == Fetched(Nearest(DirectionOf(at), Selection(st, Elements(docs), at), size),
                              |Selection(st, Elements(docs), at)| > size, DirectionOf(at));
    var next: Option<string>, prev: Option<string> := None, None;
    if fetched.processed != [] {
      next :- BuildNextCursor(st, now, fetched);
      prev :- BuildPrevCursor(st, now, fetched, cursor);
    }
    r := Ok(Page(fetched.processed, size, next, prev));
  }
}
