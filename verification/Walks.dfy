/** Following next and prev links over a fixed collection is offset paging. */
module Walks {
  import opened Wrappers
  import opened Values
  import opened Keys
  import opened Listings
  import opened Payloads
  import opened Queries
  import opened Pagination
  import Hmac = HmacCursors

  // ----- Cursors that say where their document is -----

  /** A payload as the strategy builds it: no expiry yet, and values that JSON tagging carries. */
  ghost predicate Portable(p: CursorPayload) {
    p.expiresAt.None? && Normal(p.values) && forall k | k in p.values :: Carriable(p.values[k])
  }

  /** Encoded at `now`, the payload comes back when decoded at `later`. */
  ghost predicate Delivers(codec: CursorCodec, now: int, later: int, p: CursorPayload) {
    var text := codec.encode(now, p);
    && text.Ok? && text.value != ""
    && var back := codec.decode(later, text.value);
       back.Ok? && back.value.values == p.values && back.value.direction == p.direction
  }

  /** The encoder returns the values and direction of every portable payload. */
  ghost predicate Trusted(codec: CursorCodec, now: int, later: int) {
    forall p | Portable(p) :: Delivers(codec, now, later, p)
  }

  /** ObjectIds are what `_id` holds, and only `_id`. */
  ghost predicate IdsInPlace(d: Document, fields: seq<string>) {
    forall i | 0 <= i < |fields| :: Get(d, fields[i]).ObjectId? <==> fields[i] == "_id"
  }

  /** A sort value comes back from the payload as it was exactly when it is an ObjectId just in `_id`. */
  lemma RestoredExactlyWhen(field: string, v: Value)
    ensures Coerce(map[field := Stringify(v)], field) == Ok(v) <==> (v.ObjectId? <==> field == "_id")
  {
    if v.ObjectId? && field == "_id" {
      var back := ParseObjectId(Text(v.oid)).value;
      assert back.oid == v.oid;
    }
  }

  /** The cursor of a document addresses its own key exactly when its ObjectIds are in place. */
  lemma AnchorRestored(d: Document, fields: seq<string>)
    requires Alike(d, d, fields)
    ensures CursorKey(PayloadValues(d, fields), fields) == Ok(Key(d, fields)) <==> IdsInPlace(d, fields)
  {
    var values := PayloadValues(d, fields);
    CursorKeyAt(values, fields);
    forall i | 0 <= i < |fields|
      ensures Coerce(values, fields[i]) == Ok(Get(d, fields[i]))
         <==> (Get(d, fields[i]).ObjectId? <==> fields[i] == "_id")
    {
      assert fields[i] in fields && fields[i] in d;
      RestoredExactlyWhen(fields[i], Get(d, fields[i]));
    }
    if IdsInPlace(d, fields) {
      assert CursorKey(values, fields).value == Key(d, fields);
    }
    if CursorKey(values, fields) == Ok(Key(d, fields)) {
      forall i | 0 <= i < |fields| ensures Get(d, fields[i]).ObjectId? <==> fields[i] == "_id" {
        assert Key(d, fields)[i] == Get(d, fields[i]);
      }
    }
  }

  /** A link built on a document is offered, and asks for what lies strictly beyond that document. */
  lemma LinkLocates(st: Strategy, now: int, later: int, d: Document, dir: Direction)
    requires Trusted(st.codec, now, later) && Alike(d, d, st.fields) && IdsInPlace(d, st.fields)
    ensures Link(st, now, d, dir).Ok? && Link(st, now, d, dir).value.Some?
    ensures Link(st, now, d, dir).value.value != ""
    ensures Locate(st, later, Link(st, now, d, dir).value) == Ok(Beside(dir, Key(d, st.fields)))
  {
    var values := PayloadValues(d, st.fields);
    forall k | k in values ensures !Tagged(values[k]) && Carriable(values[k]) {
      var i :| 0 <= i < |st.fields| && st.fields[i] == k;
      assert Comparable(Get(d, st.fields[i]), Get(d, st.fields[i]));
    }
    DecodeValuesNormalises(st.dates, values);
    var p := CursorPayload(1, values, dir, DESC, None);
    assert Portable(p);
    assert Delivers(st.codec, now, later, p);
    AnchorRestored(d, st.fields);
  }

  /** The HMAC encoder. */
  ghost function HmacCodec(x: Hmac.Externals, cfg: Hmac.HmacConfig): CursorCodec {
    CursorCodec((now, p) => Hmac.Encode(x, cfg, now, p), (now, cursor) => Hmac.Decode(x, cfg, now, cursor))
  }

  /** What is encoded at `now` has not expired at `later`. */
  predicate Unexpired(cfg: Hmac.HmacConfig, now: int, later: int) {
    cfg.expiresInSeconds == 0 || later <= now + cfg.expiresInSeconds * Hmac.MICROSECONDS
  }

  /** It can be trusted exactly until the expiry it fills in. */
  lemma HmacCodecTrusted(x: Hmac.Externals, cfg: Hmac.HmacConfig, now: int, later: int)
    requires x.Lawful()
    ensures Trusted(HmacCodec(x, cfg), now, later) <==> Unexpired(cfg, now, later)
  {
    var codec := HmacCodec(x, cfg);
    forall p | Portable(p)
      ensures Delivers(codec, now, later, p) <==> !Hmac.ExpiredAt(Hmac.Enrich(cfg, now, p), later)
    {
      Hmac.CarriableValidates(x, Hmac.Enrich(cfg, now, p));
      Hmac.EncodedDecodes(x, cfg, now, later, p);
    }
    var blank := CursorPayload(1, map[], NEXT, DESC, None);
    assert Portable(blank);
  }

  // ----- One page, by its offset in the full listing -----

  ghost predicate Sound(st: Strategy, now: int, later: int) {
    st.fields != [] && Trusted(st.codec, now, later)
  }

  /** Links made at the k-th fetch still hold at the next one; `clock` is the time of each fetch. */
  ghost predicate InTime(st: Strategy, clock: nat -> int, k: nat) {
    Sound(st, clock(k), clock(k + 1))
  }

  /** With the HMAC encoder that is so exactly if neighbouring fetches lie within the expiry. */
  lemma HmacInTime(st: Strategy, x: Hmac.Externals, cfg: Hmac.HmacConfig, clock: nat -> int, n: nat)
    requires x.Lawful() && st.fields != [] && st.codec == HmacCodec(x, cfg)
    ensures (forall k: nat | k < n :: InTime(st, clock, k))
       <==> (forall k: nat | k < n :: Unexpired(cfg, clock(k), clock(k + 1)))
  {
    forall k: nat | k < n ensures InTime(st, clock, k) <==> Unexpired(cfg, clock(k), clock(k + 1)) {
      HmacCodecTrusted(x, cfg, clock(k), clock(k + 1));
    }
  }

  /** A collection the strategy pages correctly. */
  ghost predicate Pageable(st: Strategy, docs: set<Document>) {
    WellKeyed(docs, st.fields) && forall d | d in docs :: IdsInPlace(d, st.fields)
  }

  /** All documents of the base filter, newest first. */
  ghost function Everything(st: Strategy, docs: set<Document>): seq<Document>
    requires WellKeyed(docs, st.fields)
  {
    Selection(st, docs, Start)
  }

  /** A sorted list of the selected documents is the selection. */
  lemma SelectionIs(st: Strategy, docs: set<Document>, at: Position, part: seq<Document>)
    requires WellKeyed(docs, st.fields)
    requires Sorted(BuildSort(NEXT, st.fields), part) && Elements(part) == Selected(st, docs, at)
    ensures Selection(st, docs, at) == part
  {
    ListingSorts(NEXT, st.fields, Selected(st, docs, at));
    SortedUnique(BuildSort(NEXT, st.fields), Selection(st, docs, at), part);
  }

  lemma BesideSplits(st: Strategy, docs: set<Document>, p: nat)
    requires WellKeyed(docs, st.fields) && p < |Everything(st, docs)|
    ensures var all := Everything(st, docs);
            && Selection(st, docs, Beside(NEXT, Key(all[p], st.fields))) == all[p + 1..]
            && Selection(st, docs, Beside(PREV, Key(all[p], st.fields))) == all[..p]
  {
    hide Listing, Precedes, Beyond, Key, Matches;
    var all := Everything(st, docs);
    var spec := BuildSort(NEXT, st.fields);
    ListingSorts(NEXT, st.fields, Selected(st, docs, Start));
    SplitAt(spec, all, p);
    var key := Key(all[p], st.fields);
    forall d ensures Precedes(spec, all[p], d) <==> Beyond(NEXT, d, st.fields, key)
      ensures Precedes(spec, d, all[p]) <==> Beyond(PREV, d, st.fields, key)
    {
      OrderedBeside(st.fields, all[p], d);
    }
    assert Elements(all[p + 1..]) == Selected(st, docs, Beside(NEXT, key));
    assert Elements(all[..p]) == Selected(st, docs, Beside(PREV, key));
    SelectionIs(st, docs, Beside(NEXT, key), all[p + 1..]);
    SelectionIs(st, docs, Beside(PREV, key), all[..p]);
  }

  lemma OrderedBeside(fields: seq<string>, anchor: Document, d: Document)
    ensures Precedes(BuildSort(NEXT, fields), anchor, d) <==> Beyond(NEXT, d, fields, Key(anchor, fields))
    ensures Precedes(BuildSort(NEXT, fields), d, anchor) <==> Beyond(PREV, d, fields, Key(anchor, fields))
  {
    BuildSortOrdersKeys(fields, anchor, d);
    BuildSortOrdersKeys(fields, d, anchor);
  }

  ghost predicate PointsPast(st: Strategy, later: int, link: Option<string>, dir: Direction, d: Document) {
    Locate(st, later, link) == Ok(Beside(dir, Key(d, st.fields)))
  }

  /** A next (prev) link, if there is one, points just past the page's last (before its first) document. */
  ghost predicate LinksFit(st: Strategy, later: int, page: Page) {
    && (page.next.Some? ==> page.items != [] && PointsPast(st, later, page.next, NEXT, page.items[|page.items| - 1]))
    && (page.prev.Some? ==> page.items != [] && PointsPast(st, later, page.prev, PREV, page.items[0]))
  }

  lemma LinksOfPage(st: Strategy, now: int, later: int, f: Fetched, size: nat, cursor: Option<string>)
    requires Sound(st, now, later)
    requires forall i | 0 <= i < |f.processed| ::
               Alike(f.processed[i], f.processed[i], st.fields) && IdsInPlace(f.processed[i], st.fields)
    ensures PageWith(st, now, f, size, cursor).Ok?
    ensures var page := PageWith(st, now, f, size, cursor).value;
            && page.items == f.processed && page.size == size
            && (page.next.Some? <==> f.processed != [] && (f.direction == PREV || f.hasExtra))
            && (page.prev.Some? <==> f.processed != [] && cursor.Some? && (f.direction == NEXT || f.hasExtra))
            && LinksFit(st, later, page)
  {
    if f.processed != [] {
      LinkLocates(st, now, later, f.processed[|f.processed| - 1], NEXT);
      LinkLocates(st, now, later, f.processed[0], PREV);
    }
  }

  /** The page of a cursor, whatever documents are selected. */
  lemma PageIs(st: Strategy, now: int, later: int, docs: set<Document>, size: nat,
               cursor: Option<string>, at: Position, all: seq<Document>)
    requires Sound(st, now, later) && Pageable(st, docs) && size >= 1
    requires Locate(st, now, cursor) == Ok(at) && all == Selection(st, docs, at)
    ensures PageOf(st, now, docs, size, cursor).Ok?
    ensures var page := PageOf(st, now, docs, size, cursor).value;
            && page.items == Nearest(DirectionOf(at), all, size) && page.size == size
            && (page.next.Some? <==> all != [] && (DirectionOf(at) == PREV || |all| > size))
            && (page.prev.Some? <==> all != [] && cursor.Some? && (DirectionOf(at) == NEXT || |all| > size))
            && LinksFit(st, later, page)
  {
    var items := Nearest(DirectionOf(at), all, size);
    ListingSorts(NEXT, st.fields, Selected(st, docs, at));
    forall i | 0 <= i < |items| ensures Alike(items[i], items[i], st.fields) && IdsInPlace(items[i], st.fields) {
      assert items[i] in Elements(all);
      assert items[i] in docs;
    }
    LinksOfPage(st, now, later, Fetched(items, |all| > size, DirectionOf(at)), size, cursor);
  }

  // ----- Cursor paging simulates offset paging -----

  /** offset/mapper.py, `links`: the offsets a page links to. */
  function OffsetLinks(offset: int, size: int, total: int): (Option<int>, Option<int>) {
    var nextOffset := offset + size;
    var prevOffset := Max(offset - size, 0);
    (if nextOffset < total then Some(nextOffset) else None,
     if offset > 0 then Some(prevOffset) else None)
  }

  /** A next offset is offered exactly before the total, a previous one exactly after 0, and it is never negative. */
  lemma OffsetLinksMean(offset: int, size: nat, total: int)
    requires offset >= 0
    ensures var (next, prev) := OffsetLinks(offset, size, total);
            && (next.Some? <==> offset + size < total) && (next.Some? ==> next.value - offset == size)
            && (prev.Some? <==> offset > 0)
            && (prev.Some? && offset >= size ==> offset - prev.value == size)
            && (prev.Some? && offset < size ==> prev.value == 0)
  {
  }

  datatype Move = GoNext | GoPrev

  /** The offset reached by following offset links; None if a move has no link. */
  function OffsetVisit(total: int, size: int, moves: seq<Move>): Option<int> {
    if moves == [] then Some(0)
    else
      var before := OffsetVisit(total, size, moves[..|moves| - 1]);
      if before.None? then None
      else
        var (next, prev) := OffsetLinks(before.value, size, total);
        if moves[|moves| - 1] == GoNext then next else prev
  }

  /** The page a link leads to; None without a link. */
  ghost function Follow(st: Strategy, now: int, docs: set<Document>, size: nat, link: Option<string>): Option<Page>
    requires WellKeyed(docs, st.fields)
  {
    if link.None? then None
    else
      var page := PageOf(st, now, docs, size, link);
      if page.Ok? then Some(page.value) else None
  }

  /** The page reached by following cursor links from the first page, with one reading of the clock per
      fetch; None if a move has no link. */
  ghost function Visit(st: Strategy, clock: nat -> int, docs: set<Document>, size: nat, moves: seq<Move>): Option<Page>
    requires WellKeyed(docs, st.fields)
  {
    if moves == [] then
      var first := PageOf(st, clock(0), docs, size, None);
      if first.Ok? then Some(first.value) else None
    else
      var before := Visit(st, clock, docs, size, moves[..|moves| - 1]);
      if before.None? then None
      else
        var link := if moves[|moves| - 1] == GoNext then before.value.next else before.value.prev;
        Follow(st, clock(|moves|), docs, size, link)
  }

  /** Next moves minus prev moves. */
  function PageNumber(moves: seq<Move>): int {
    if moves == [] then 0
    else PageNumber(moves[..|moves| - 1]) + (if moves[|moves| - 1] == GoNext then 1 else -1)
  }

  /** `page` is what offset paging of `all` shows at `offset`, with the links it offers there. */
  ghost predicate Shows(all: seq<Document>, size: nat, page: Page, offset: int) {
    var (next, prev) := OffsetLinks(offset, size, |all|);
    && 0 <= offset <= |all|
    && page.items == all[offset..Min(offset + size, |all|)]
    && (page.next.Some? <==> next.Some?)
    && (page.prev.Some? <==> prev.Some?)
  }

  /** Offset links lead from page to page: the offset is the page number times the size. */
  lemma {:induction false} OffsetIsPageStart(total: int, size: int, moves: seq<Move>)
    requires size >= 1
    ensures OffsetVisit(total, size, moves).Some? ==> OffsetVisit(total, size, moves).value == PageNumber(moves) * size
    decreases |moves|
  {
    if moves != [] {
      OffsetIsPageStart(total, size, moves[..|moves| - 1]);
      LinksByPage(PageNumber(moves[..|moves| - 1]), size, total);
    }
  }

  lemma LinksByPage(k: int, size: int, total: int)
    requires size >= 1
    ensures var (next, prev) := OffsetLinks(k * size, size, total);
            && (next.Some? ==> next.value == (k + 1) * size)
            && (prev.Some? ==> prev.value == (k - 1) * size)
  {
    if k * size > 0 { PositiveMultiple(k, size); }
    assert (k + 1) * size == k * size + size && (k - 1) * size == k * size - size;
  }

  /** There is a page exactly if there is an offset; the page is the slice of the listing at that offset, with
      the offset mapper's links, and its cursors point past its ends. */
  ghost predicate Agree(st: Strategy, later: int, docs: set<Document>, size: nat,
                        page: Option<Page>, offset: Option<int>)
    requires WellKeyed(docs, st.fields)
  {
    && (page.Some? <==> offset.Some?)
    && (page.Some? ==> Shows(Everything(st, docs), size, page.value, offset.value) && LinksFit(st, later, page.value))
  }

  /** Any moves that can be followed with cursors, each before it expires, can be followed with offsets and
      the other way round; they reach the slice of the listing at that offset, with the mapper's links. */
  lemma {:induction false} CursorSimulatesOffset(
    st: Strategy, clock: nat -> int, docs: set<Document>, size: nat, moves: seq<Move>)
    requires Pageable(st, docs) && size >= 1 && forall k: nat | k <= |moves| :: InTime(st, clock, k)
    ensures Agree(st, clock(|moves| + 1), docs, size,
                  Visit(st, clock, docs, size, moves), OffsetVisit(|Everything(st, docs)|, size, moves))
    decreases |moves|
  {
    hide PageOf, Follow, Shows, LinksFit, Everything, OffsetLinks;
    var (now, later) := (clock(|moves|), clock(|moves| + 1));
    assert InTime(st, clock, |moves|);
    if moves == [] {
      FirstPageShows(st, now, later, docs, size);
    } else {
      var earlier := moves[..|moves| - 1];
      var before := Visit(st, clock, docs, size, earlier);
      var offset := OffsetVisit(|Everything(st, docs)|, size, earlier);
      CursorSimulatesOffset(st, clock, docs, size, earlier);
      if before.Some? {
        NextAgrees(st, now, later, docs, size, before.value, offset.value);
        OffsetIsPageStart(|Everything(st, docs)|, size, earlier);
        PrevAgrees(st, now, later, docs, size, before.value, PageNumber(earlier));
      }
    }
  }

  lemma NextAgrees(st: Strategy, now: int, later: int, docs: set<Document>, size: nat, page: Page, offset: int)
    requires Sound(st, now, later) && Pageable(st, docs) && size >= 1
    requires Shows(Everything(st, docs), size, page, offset) && LinksFit(st, now, page)
    ensures var (next, _) := OffsetLinks(offset, size, |Everything(st, docs)|);
            Agree(st, later, docs, size, Follow(st, now, docs, size, page.next), next)
  {
    hide PageOf, Everything;
    if page.next.Some? {
      NextSimulates(st, now, later, docs, size, page, offset);
    }
  }

  lemma PrevAgrees(st: Strategy, now: int, later: int, docs: set<Document>, size: nat, page: Page, k: int)
    requires Sound(st, now, later) && Pageable(st, docs) && size >= 1
    requires Shows(Everything(st, docs), size, page, k * size) && LinksFit(st, now, page)
    ensures var (_, prev) := OffsetLinks(k * size, size, |Everything(st, docs)|);
            Agree(st, later, docs, size, Follow(st, now, docs, size, page.prev), prev)
  {
    hide PageOf, Everything;
    if page.prev.Some? {
      PositiveMultiple(k, size);
      PrevSimulates(st, now, later, docs, size, page, k * size);
    }
  }

  lemma FirstPageShows(st: Strategy, now: int, later: int, docs: set<Document>, size: nat)
    requires Sound(st, now, later) && Pageable(st, docs) && size >= 1
    ensures PageOf(st, now, docs, size, None).Ok?
    ensures Shows(Everything(st, docs), size, PageOf(st, now, docs, size, None).value, 0)
    ensures LinksFit(st, later, PageOf(st, now, docs, size, None).value)
  {
    PageIs(st, now, later, docs, size, None, Start, Everything(st, docs));
  }

  lemma NextSimulates(st: Strategy, now: int, later: int, docs: set<Document>, size: nat, page: Page, offset: int)
    requires Sound(st, now, later) && Pageable(st, docs) && size >= 1
    requires Shows(Everything(st, docs), size, page, offset) && LinksFit(st, now, page) && page.next.Some?
    ensures PageOf(st, now, docs, size, page.next).Ok?
    ensures Shows(Everything(st, docs), size, PageOf(st, now, docs, size, page.next).value, offset + size)
    ensures LinksFit(st, later, PageOf(st, now, docs, size, page.next).value)
  {
    hide PageOf, Locate, Selection, Everything, Nearest;
    var all := Everything(st, docs);
    var last := offset + size - 1;
    LastShown(all, size, page, offset);
    BesideSplits(st, docs, last);
    NearestFromPosition(all, last + 1, size);
    PageIs(st, now, later, docs, size, page.next, Beside(NEXT, Key(all[last], st.fields)), all[last + 1..]);
    ForwardShows(all, size, PageOf(st, now, docs, size, page.next).value, offset + size);
  }

  /** A page with a next link ends before the listing does. */
  lemma LastShown(all: seq<Document>, size: nat, page: Page, offset: int)
    requires Shows(all, size, page, offset) && size >= 1 && page.next.Some?
    ensures offset + size < |all| && page.items != []
    ensures page.items[|page.items| - 1] == all[offset + size - 1]
  {
  }

  lemma PrevSimulates(st: Strategy, now: int, later: int, docs: set<Document>, size: nat, page: Page, offset: int)
    requires Sound(st, now, later) && Pageable(st, docs) && size >= 1
    requires Shows(Everything(st, docs), size, page, offset) && LinksFit(st, now, page) && page.prev.Some?
    requires offset >= size
    ensures PageOf(st, now, docs, size, page.prev).Ok?
    ensures Shows(Everything(st, docs), size, PageOf(st, now, docs, size, page.prev).value, offset - size)
    ensures LinksFit(st, later, PageOf(st, now, docs, size, page.prev).value)
  {
    hide PageOf, Locate;
    var all := Everything(st, docs);
    assert page.items[0] == all[offset];
    BesideSplits(st, docs, offset);
    PageIs(st, now, later, docs, size, page.prev, Beside(PREV, Key(all[offset], st.fields)), all[..offset]);
    BackwardShows(all, size, PageOf(st, now, docs, size, page.prev).value, offset);
  }

  lemma ForwardShows(all: seq<Document>, size: nat, page: Page, offset: int)
    requires 0 < offset < |all| && size >= 1
    requires page.items == all[offset..Min(offset + size, |all|)]
    requires page.next.Some? <==> offset + size < |all|
    requires page.prev.Some?
    ensures Shows(all, size, page, offset)
  {
  }

  lemma BackwardShows(all: seq<Document>, size: nat, page: Page, offset: int)
    requires 1 <= size <= offset < |all|
    requires page.items == Nearest(PREV, all[..offset], size)
    requires page.next.Some?
    requires page.prev.Some? <==> offset > size
    ensures Shows(all, size, page, offset - size)
  {
    assert all[..offset][offset - size..] == all[offset - size..offset];
    assert offset == size ==> all[..offset] == all[0..offset];
  }

  lemma PositiveMultiple(k: int, size: int)
    requires size >= 1 && k * size > 0
    ensures k * size >= size
  {
    assert k <= 0 ==> k * size <= 0;
  }

  /** With an empty cursor text the first page offers a prev link although its offset is 0,
      unless nothing matches. */
  lemma EmptyCursorOffersPrev(st: Strategy, now: int, later: int, docs: set<Document>, size: nat)
    requires Sound(st, now, later) && Pageable(st, docs) && size >= 1
    ensures PageOf(st, now, docs, size, Some("")).Ok?
    ensures PageOf(st, now, docs, size, Some("")).value.prev.Some? <==> Everything(st, docs) != []
    ensures Shows(Everything(st, docs), size, PageOf(st, now, docs, size, Some("")).value, 0)
       <==> Everything(st, docs) == []
  {
    PageIs(st, now, later, docs, size, Some(""), Start, Everything(st, docs));
  }
}
