/** Walking forward by next links, while the collection changes between fetches and while it does not. */
module ForwardWalks {
  import opened Wrappers
  import opened Values
  import opened Keys
  import opened Listings
  import opened Queries
  import opened Pagination
  import opened Walks

  ghost predicate AllKeyed(st: Strategy, snapshots: seq<set<Document>>) {
    forall i | 0 <= i < |snapshots| :: WellKeyed(snapshots[i], st.fields)
  }

  /** The fetches from the k-th on, one for each state of the collection, page it correctly. */
  ghost predicate AllPageable(
    st: Strategy, clock: nat -> int, k: nat, snapshots: seq<set<Document>>, sizes: seq<nat>) {
    && (forall i: nat | k <= i < k + |snapshots| :: InTime(st, clock, i))
    && |snapshots| == |sizes|
    && (forall i | 0 <= i < |sizes| :: sizes[i] >= 1)
    && (forall i | 0 <= i < |snapshots| :: Pageable(st, snapshots[i]))
  }

  /** The pages fetched by following next from the k-th fetch on, each on the next state of the collection
      with the next page size, until a page has no next link or the states run out. */
  ghost function Walk(st: Strategy, clock: nat -> int, k: nat, snapshots: seq<set<Document>>, sizes: seq<nat>,
                      cursor: Option<string>): seq<Page>
    requires |snapshots| == |sizes| && AllKeyed(st, snapshots)
    decreases |snapshots|
  {
    if snapshots == [] then []
    else
      var r := PageOf(st, clock(k), snapshots[0], sizes[0], cursor);
      if r.Err? then []
      else if r.value.next.None? then [r.value]
      else [r.value] + Walk(st, clock, k + 1, snapshots[1..], sizes[1..], r.value.next)
  }

  ghost predicate Finished(pages: seq<Page>) {
    pages != [] && pages[|pages| - 1].next.None?
  }

  ghost function Flatten(pages: seq<Page>): seq<Document> {
    if pages == [] then [] else pages[0].items + Flatten(pages[1..])
  }

  lemma FlattenCons(page: Page, pages: seq<Page>)
    ensures Flatten([page] + pages) == page.items + Flatten(pages)
  {
    assert ([page] + pages)[1..] == pages;
  }

  /** The pages after the first. */
  ghost function Onward(st: Strategy, clock: nat -> int, k: nat, snapshots: seq<set<Document>>, sizes: seq<nat>,
                        next: Option<string>): seq<Page>
    requires snapshots != [] && |snapshots| == |sizes| && AllKeyed(st, snapshots)
  {
    if next.None? then [] else Walk(st, clock, k + 1, snapshots[1..], sizes[1..], next)
  }

  lemma WalkStep(st: Strategy, clock: nat -> int, k: nat, snapshots: seq<set<Document>>, sizes: seq<nat>,
                 cursor: Option<string>)
    requires snapshots != [] && |snapshots| == |sizes| && AllKeyed(st, snapshots)
    requires PageOf(st, clock(k), snapshots[0], sizes[0], cursor).Ok?
    ensures var page := PageOf(st, clock(k), snapshots[0], sizes[0], cursor).value;
            var onward := Onward(st, clock, k, snapshots, sizes, page.next);
            && Walk(st, clock, k, snapshots, sizes, cursor) == [page] + onward
            && Flatten(Walk(st, clock, k, snapshots, sizes, cursor)) == page.items + Flatten(onward)
            && (Finished(Walk(st, clock, k, snapshots, sizes, cursor)) <==> page.next.None? || Finished(onward))
  {
    var page := PageOf(st, clock(k), snapshots[0], sizes[0], cursor).value;
    var onward := Onward(st, clock, k, snapshots, sizes, page.next);
    FlattenCons(page, onward);
    assert Walk(st, clock, k, snapshots, sizes, cursor) == [page] + onward;
    if onward != [] {
      assert ([page] + onward)[|onward|] == onward[|onward| - 1];
    }
  }

  /** The cursor asks for everything, or for what lies strictly below a document's key. */
  ghost predicate StartsBelow(st: Strategy, now: int, cursor: Option<string>, bound: Option<Document>) {
    Locate(st, now, cursor) == Ok(if bound.None? then Start else Beside(NEXT, Key(bound.value, st.fields)))
  }

  ghost predicate Below(st: Strategy, d: Document, bound: Option<Document>) {
    bound.Some? ==> Precedes(BuildSort(NEXT, st.fields), bound.value, d)
  }

  /** The first page of a walk: sorted documents of the collection, below the bound, that leave
      out only what the next link asks for. */
  lemma FirstPage(st: Strategy, now: int, later: int, docs: set<Document>, size: nat,
                  cursor: Option<string>, bound: Option<Document>)
    requires Sound(st, now, later) && Pageable(st, docs) && size >= 1 && StartsBelow(st, now, cursor, bound)
    ensures PageOf(st, now, docs, size, cursor).Ok?
    ensures var page := PageOf(st, now, docs, size, cursor).value;
            && Sorted(BuildSort(NEXT, st.fields), page.items)
            && (forall d | d in Elements(page.items) :: d in docs && Matches(d, st.base) && Below(st, d, bound))
            && (page.next.Some? ==>
                  page.items != [] && StartsBelow(st, later, page.next, Some(page.items[|page.items| - 1])))
            && (forall d | d in docs && Matches(d, st.base) && Below(st, d, bound) ::
                  d in Elements(page.items) || (page.next.Some? && Below(st, d, Some(page.items[|page.items| - 1]))))
  {
    hide PageOf, Selection, Locate;
    var at := if bound.None? then Start else Beside(NEXT, Key(bound.value, st.fields));
    var all := Selection(st, docs, at);
    SelectedBelow(st, docs, bound);
    PageIs(st, now, later, docs, size, cursor, at, all);
    PrefixCovers(st, all, size);
    hide Sorted, Below, Elements;
    var page := PageOf(st, now, docs, size, cursor).value;
    assert page.items == all[..Min(size, |all|)];
  }

  /** What lies below a bound is listed in order. */
  lemma SelectedBelow(st: Strategy, docs: set<Document>, bound: Option<Document>)
    requires WellKeyed(docs, st.fields)
    ensures var all := Selection(st, docs, if bound.None? then Start else Beside(NEXT, Key(bound.value, st.fields)));
            && Sorted(BuildSort(NEXT, st.fields), all)
            && forall d :: d in Elements(all) <==> d in docs && Matches(d, st.base) && Below(st, d, bound)
  {
    hide Listing;
    var at := if bound.None? then Start else Beside(NEXT, Key(bound.value, st.fields));
    ListingSorts(NEXT, st.fields, Selected(st, docs, at));
    forall d ensures Selects(st, at, d) <==> Matches(d, st.base) && Below(st, d, bound) {
      if bound.Some? { BuildSortOrdersKeys(st.fields, bound.value, d); }
    }
  }

  /** A prefix of a sorted list leaves out only what lies below its last document. */
  lemma PrefixCovers(st: Strategy, all: seq<Document>, size: nat)
    requires Sorted(BuildSort(NEXT, st.fields), all) && size >= 1
    ensures var items := all[..Min(size, |all|)];
            && Sorted(BuildSort(NEXT, st.fields), items)
            && (forall d | d in Elements(items) :: d in Elements(all))
            && (all != [] ==> items != [])
            && (forall d | d in Elements(all) :: d in Elements(items)
                  || (|all| > size && Below(st, d, Some(items[|items| - 1]))))
  {
    var items := all[..Min(size, |all|)];
    forall d | d in Elements(all)
      ensures d in Elements(items) || (|all| > size && Below(st, d, Some(items[|items| - 1])))
    {
      var i :| 0 <= i < |all| && all[i] == d;
      if i < |items| { assert items[i] == d; }
    }
  }

  lemma {:induction false} WalkDescends(
    st: Strategy, clock: nat -> int, k: nat, snapshots: seq<set<Document>>, sizes: seq<nat>,
    cursor: Option<string>, bound: Option<Document>)
    requires AllPageable(st, clock, k, snapshots, sizes) && AllKeyed(st, snapshots)
    requires StartsBelow(st, clock(k), cursor, bound)
    ensures var xs := Flatten(Walk(st, clock, k, snapshots, sizes, cursor));
            && Sorted(BuildSort(NEXT, st.fields), xs)
            && (forall d | d in Elements(xs) :: Below(st, d, bound))
    decreases |snapshots|
  {
    hide PageOf, Below, StartsBelow;
    if snapshots != [] {
      AllTail(st, clock, k, snapshots, sizes);
      assert InTime(st, clock, k);
      FirstPage(st, clock(k), clock(k + 1), snapshots[0], sizes[0], cursor, bound);
      WalkStep(st, clock, k, snapshots, sizes, cursor);
      var page := PageOf(st, clock(k), snapshots[0], sizes[0], cursor).value;
      var later := Flatten(Onward(st, clock, k, snapshots, sizes, page.next));
      if page.next.Some? {
        var last := page.items[|page.items| - 1];
        WalkDescends(st, clock, k + 1, snapshots[1..], sizes[1..], page.next, Some(last));
        ChainDescends(st, page.items, later, bound);
      } else {
        assert page.items + later == page.items;
      }
    }
  }

  lemma ChainDescends(st: Strategy, items: seq<Document>, later: seq<Document>, bound: Option<Document>)
    requires items != [] && Sorted(BuildSort(NEXT, st.fields), items) && Sorted(BuildSort(NEXT, st.fields), later)
    requires forall d | d in Elements(items) :: Below(st, d, bound)
    requires forall d | d in Elements(later) :: Below(st, d, Some(items[|items| - 1]))
    ensures Sorted(BuildSort(NEXT, st.fields), items + later)
    ensures forall d | d in Elements(items + later) :: Below(st, d, bound)
  {
    var spec, last := BuildSort(NEXT, st.fields), items[|items| - 1];
    assert last in Elements(items);
    forall d | d in Elements(later) ensures Precedes(spec, last, d) && Below(st, d, bound) {
      assert Below(st, d, Some(last));
      if bound.Some? { PrecedesStrict(spec, bound.value, last, d); }
    }
    SortedConcat(spec, items, later);
  }

  lemma SortedConcat(spec: SortSpec, xs: seq<Document>, ys: seq<Document>)
    requires Sorted(spec, xs) && Sorted(spec, ys) && xs != []
    requires forall d | d in Elements(ys) :: Precedes(spec, xs[|xs| - 1], d)
    ensures Sorted(spec, xs + ys)
    ensures Elements(xs + ys) == Elements(xs) + Elements(ys)
  {
    forall i, j | 0 <= i < |xs| && 0 <= j < |ys| ensures Precedes(spec, xs[i], ys[j]) {
      assert ys[j] in Elements(ys);
      PrecedesStrict(spec, xs[i], xs[|xs| - 1], ys[j]);
    }
  }

  /** Some matching document has this key. */
  ghost predicate Present(st: Strategy, docs: set<Document>, key: seq<Value>) {
    exists d | d in docs :: Matches(d, st.base) && Key(d, st.fields) == key
  }

  ghost predicate PresentThroughout(st: Strategy, snapshots: seq<set<Document>>, key: seq<Value>) {
    forall i | 0 <= i < |snapshots| :: Present(st, snapshots[i], key)
  }

  ghost predicate Returned(st: Strategy, xs: seq<Document>, key: seq<Value>) {
    exists i | 0 <= i < |xs| :: Key(xs[i], st.fields) == key
  }

  lemma {:induction false} WalkCovers(
    st: Strategy, clock: nat -> int, k: nat, snapshots: seq<set<Document>>, sizes: seq<nat>,
    cursor: Option<string>, bound: Option<Document>, key: seq<Value>)
    requires AllPageable(st, clock, k, snapshots, sizes) && AllKeyed(st, snapshots)
    requires StartsBelow(st, clock(k), cursor, bound)
    requires Finished(Walk(st, clock, k, snapshots, sizes, cursor)) && PresentThroughout(st, snapshots, key)
    requires bound.Some? ==> KeyLess(key, Key(bound.value, st.fields))
    ensures Returned(st, Flatten(Walk(st, clock, k, snapshots, sizes, cursor)), key)
    decreases |snapshots|
  {
    hide PageOf;
    assert Present(st, snapshots[0], key);
    assert InTime(st, clock, k);
    AllTail(st, clock, k, snapshots, sizes);
    FirstPageCovers(st, clock(k), clock(k + 1), snapshots[0], sizes[0], cursor, bound, key);
    WalkStep(st, clock, k, snapshots, sizes, cursor);
    var page := PageOf(st, clock(k), snapshots[0], sizes[0], cursor).value;
    if !Returned(st, page.items, key) {
      WalkCovers(st, clock, k + 1, snapshots[1..], sizes[1..], page.next, Some(page.items[|page.items| - 1]), key);
    }
    ReturnedInEither(st, page.items, Flatten(Onward(st, clock, k, snapshots, sizes, page.next)), key);
  }

  /** The first page returns a present key, or its next link still asks for it. */
  lemma FirstPageCovers(st: Strategy, now: int, later: int, docs: set<Document>, size: nat, cursor: Option<string>,
                        bound: Option<Document>, key: seq<Value>)
    requires Sound(st, now, later) && Pageable(st, docs) && size >= 1 && StartsBelow(st, now, cursor, bound)
    requires Present(st, docs, key) && (bound.Some? ==> KeyLess(key, Key(bound.value, st.fields)))
    ensures PageOf(st, now, docs, size, cursor).Ok?
    ensures var page := PageOf(st, now, docs, size, cursor).value;
            || Returned(st, page.items, key)
            || (&& page.next.Some? && page.items != []
                && StartsBelow(st, later, page.next, Some(page.items[|page.items| - 1]))
                && KeyLess(key, Key(page.items[|page.items| - 1], st.fields)))
  {
    FirstPage(st, now, later, docs, size, cursor, bound);
    var page := PageOf(st, now, docs, size, cursor).value;
    var d :| d in docs && Matches(d, st.base) && Key(d, st.fields) == key;
    if bound.Some? { BuildSortOrdersKeys(st.fields, bound.value, d); }
    assert Below(st, d, bound);
    if d in Elements(page.items) {
      var i :| 0 <= i < |page.items| && page.items[i] == d;
    } else {
      BuildSortOrdersKeys(st.fields, page.items[|page.items| - 1], d);
    }
  }

  lemma ReturnedInEither(st: Strategy, xs: seq<Document>, ys: seq<Document>, key: seq<Value>)
    ensures Returned(st, xs, key) || Returned(st, ys, key) ==> Returned(st, xs + ys, key)
  {
    if i :| 0 <= i < |xs| && Key(xs[i], st.fields) == key {
      assert (xs + ys)[i] == xs[i];
    }
    if i :| 0 <= i < |ys| && Key(ys[i], st.fields) == key {
      assert (xs + ys)[|xs| + i] == ys[i];
    }
  }

  /** Walking forward, each link followed before it expires, while documents are inserted, deleted and
      changed in any way between fetches: keys strictly descend, so nothing is returned twice; and when the
      walk ends, each key that a matching document had at every fetch was returned exactly once. */
  lemma ForwardWalk(st: Strategy, clock: nat -> int, snapshots: seq<set<Document>>, sizes: seq<nat>)
    requires AllPageable(st, clock, 0, snapshots, sizes) && AllKeyed(st, snapshots)
    ensures var xs := Flatten(Walk(st, clock, 0, snapshots, sizes, None));
            && (forall i, j | 0 <= i < j < |xs| :: KeyLess(Key(xs[j], st.fields), Key(xs[i], st.fields)))
            && (forall i, j | 0 <= i < j < |xs| :: Key(xs[j], st.fields) != Key(xs[i], st.fields))
    ensures Finished(Walk(st, clock, 0, snapshots, sizes, None)) ==>
              forall key | PresentThroughout(st, snapshots, key) ::
                Returned(st, Flatten(Walk(st, clock, 0, snapshots, sizes, None)), key)
  {
    var xs := Flatten(Walk(st, clock, 0, snapshots, sizes, None));
    WalkDescends(st, clock, 0, snapshots, sizes, None, None);
    forall i, j | 0 <= i < j < |xs|
      ensures KeyLess(Key(xs[j], st.fields), Key(xs[i], st.fields)) && Key(xs[j], st.fields) != Key(xs[i], st.fields)
    {
      BuildSortOrdersKeys(st.fields, xs[i], xs[j]);
      BuildSortOrdersKeys(st.fields, xs[i], xs[i]);
      PrecedesStrict(BuildSort(NEXT, st.fields), xs[i], xs[i], xs[i]);
    }
    if Finished(Walk(st, clock, 0, snapshots, sizes, None)) {
      forall key | PresentThroughout(st, snapshots, key) ensures Returned(st, xs, key) {
        WalkCovers(st, clock, 0, snapshots, sizes, None, None, key);
      }
    }
  }

  ghost predicate ComesFrom(st: Strategy, page: Page, docs: set<Document>) {
    forall d | d in Elements(page.items) :: d in docs && Matches(d, st.base)
  }

  /** Nothing foreign is returned: the i-th page holds matching documents of the i-th state. */
  lemma {:induction false} WalkReturnsMatches(
    st: Strategy, clock: nat -> int, k: nat, snapshots: seq<set<Document>>, sizes: seq<nat>,
    cursor: Option<string>, bound: Option<Document>)
    requires AllPageable(st, clock, k, snapshots, sizes) && AllKeyed(st, snapshots)
    requires StartsBelow(st, clock(k), cursor, bound)
    ensures |Walk(st, clock, k, snapshots, sizes, cursor)| <= |snapshots|
    ensures forall i | 0 <= i < |Walk(st, clock, k, snapshots, sizes, cursor)| ::
              ComesFrom(st, Walk(st, clock, k, snapshots, sizes, cursor)[i], snapshots[i])
    decreases |snapshots|
  {
    hide PageOf;
    if snapshots != [] {
      assert InTime(st, clock, k);
      FirstPage(st, clock(k), clock(k + 1), snapshots[0], sizes[0], cursor, bound);
      var page := PageOf(st, clock(k), snapshots[0], sizes[0], cursor).value;
      assert ComesFrom(st, page, snapshots[0]);
      if page.next.Some? {
        var later := snapshots[1..];
        AllTail(st, clock, k, snapshots, sizes);
        WalkReturnsMatches(st, clock, k + 1, later, sizes[1..], page.next, Some(page.items[|page.items| - 1]));
        var pages := Walk(st, clock, k + 1, later, sizes[1..], page.next);
        assert Walk(st, clock, k, snapshots, sizes, cursor) == [page] + pages;
        forall i | 0 <= i < |[page] + pages| ensures ComesFrom(st, ([page] + pages)[i], snapshots[i]) {
          if i > 0 { assert ComesFrom(st, pages[i - 1], later[i - 1]); }
        }
      }
    }
  }

  // ----- A collection that stays as it is -----

  /** Over a fixed collection, whatever the page sizes: the pages concatenate to the sorted list of
      matching documents, and the walk ends after at most one page for each remaining document. */
  lemma DrainsListing(st: Strategy, clock: nat -> int, docs: set<Document>,
                      snapshots: seq<set<Document>>, sizes: seq<nat>)
    requires AllPageable(st, clock, 0, snapshots, sizes) && AllKeyed(st, snapshots) && Pageable(st, docs)
    requires forall i | 0 <= i < |snapshots| :: snapshots[i] == docs
    requires |snapshots| >= Max(1, |Everything(st, docs)|)
    ensures Finished(Walk(st, clock, 0, snapshots, sizes, None))
    ensures Flatten(Walk(st, clock, 0, snapshots, sizes, None)) == Everything(st, docs)
  {
    DrainsFrom(st, clock, 0, docs, snapshots, sizes, None, 0);
  }

  lemma {:induction false} DrainsFrom(st: Strategy, clock: nat -> int, k: nat, docs: set<Document>,
                                      snapshots: seq<set<Document>>, sizes: seq<nat>,
                                      cursor: Option<string>, offset: nat)
    requires AllPageable(st, clock, k, snapshots, sizes) && AllKeyed(st, snapshots) && Pageable(st, docs)
    requires forall i | 0 <= i < |snapshots| :: snapshots[i] == docs
    requires offset <= |Everything(st, docs)| && |snapshots| >= Max(1, |Everything(st, docs)| - offset)
    requires StartsBelow(st, clock(k), cursor, if offset == 0 then None else Some(Everything(st, docs)[offset - 1]))
    ensures Finished(Walk(st, clock, k, snapshots, sizes, cursor))
    ensures Flatten(Walk(st, clock, k, snapshots, sizes, cursor)) == Everything(st, docs)[offset..]
    decreases |snapshots|
  {
    hide PageOf, Locate, Selection;
    assert InTime(st, clock, k);
    var all := Everything(st, docs);
    FixedPage(st, clock(k), clock(k + 1), docs, sizes[0], cursor, offset);
    WalkStep(st, clock, k, snapshots, sizes, cursor);
    var next := PageOf(st, clock(k), docs, sizes[0], cursor).value.next;
    if next.Some? {
      var later := offset + sizes[0];
      SlicesJoin(all, offset, later);
      AllTail(st, clock, k, snapshots, sizes);
      DrainsFrom(st, clock, k + 1, docs, snapshots[1..], sizes[1..], next, later);
    } else {
      SlicesJoin(all, offset, |all|);
    }
  }

  lemma AllTail(st: Strategy, clock: nat -> int, k: nat, snapshots: seq<set<Document>>, sizes: seq<nat>)
    requires AllPageable(st, clock, k, snapshots, sizes) && AllKeyed(st, snapshots) && snapshots != []
    ensures AllPageable(st, clock, k + 1, snapshots[1..], sizes[1..]) && AllKeyed(st, snapshots[1..])
  {
  }

  lemma SlicesJoin(all: seq<Document>, a: nat, b: nat)
    requires a <= b <= |all|
    ensures all[a..b] + all[b..] == all[a..]
    ensures b == |all| ==> all[a..b] + [] == all[a..]
  {
  }

  lemma FixedPage(st: Strategy, now: int, later: int, docs: set<Document>, size: nat,
                  cursor: Option<string>, offset: nat)
    requires Sound(st, now, later) && Pageable(st, docs) && size >= 1 && offset <= |Everything(st, docs)|
    requires StartsBelow(st, now, cursor, if offset == 0 then None else Some(Everything(st, docs)[offset - 1]))
    ensures PageOf(st, now, docs, size, cursor).Ok?
    ensures var all := Everything(st, docs);
            var page := PageOf(st, now, docs, size, cursor).value;
            && page.items == all[offset..Min(offset + size, |all|)]
            && (page.next.Some? <==> offset + size < |all|)
            && (page.next.Some? ==> StartsBelow(st, later, page.next, Some(all[offset + size - 1])))
  {
    hide PageOf, Listing;
    var all := Everything(st, docs);
    var at := if offset == 0 then Start else Beside(NEXT, Key(all[offset - 1], st.fields));
    assert Selection(st, docs, at) == all[offset..] by {
      if offset > 0 { BesideSplits(st, docs, offset - 1); }
    }
    NearestFromPosition(all, offset, size);
    PageIs(st, now, later, docs, size, cursor, at, all[offset..]);
  }
}
