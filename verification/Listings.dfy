/** The sorted listing of a set of documents: what `find(...).sort(...)` returns. */
module Listings {
  import opened Values
  import opened Keys

  ghost function Elements(xs: seq<Document>): set<Document> {
    set d | d in xs
  }

  ghost predicate Sorted(spec: SortSpec, xs: seq<Document>) {
    forall i, j | 0 <= i < j < |xs| :: Precedes(spec, xs[i], xs[j])
  }

  /** Place a document at its position in a sorted list. */
  function Insert(spec: SortSpec, xs: seq<Document>, d: Document): seq<Document> {
    if xs == [] then [d]
    else if Precedes(spec, d, xs[0]) then [d] + xs
    else [xs[0]] + Insert(spec, xs[1..], d)
  }

  lemma {:induction false} InsertKeepsSorted(spec: SortSpec, xs: seq<Document>, d: Document)
    requires Sorted(spec, xs)
    requires forall i | 0 <= i < |xs| :: Precedes(spec, xs[i], d) || Precedes(spec, d, xs[i])
    ensures Sorted(spec, Insert(spec, xs, d))
    ensures Elements(Insert(spec, xs, d)) == Elements(xs) + {d}
  {
    if xs == [] {
    } else if Precedes(spec, d, xs[0]) {
      forall j | 0 <= j < |xs| ensures Precedes(spec, d, xs[j]) {
        PrecedesStrict(spec, d, xs[0], xs[j]);
      }
      assert Elements([d] + xs) == Elements(xs) + {d};
    } else {
      var rest := xs[1..];
      InsertKeepsSorted(spec, rest, d);
      assert Elements(xs) == Elements(rest) + {xs[0]} by {
        assert xs == [xs[0]] + rest;
      }
      ConsSorted(spec, xs[0], Insert(spec, rest, d));
    }
  }

  lemma ConsSorted(spec: SortSpec, d: Document, xs: seq<Document>)
    requires Sorted(spec, xs)
    requires forall e | e in Elements(xs) :: Precedes(spec, d, e)
    ensures Sorted(spec, [d] + xs)
    ensures Elements([d] + xs) == Elements(xs) + {d}
  {
    forall j | 0 <= j < |xs| ensures Precedes(spec, d, xs[j]) {
      assert xs[j] in Elements(xs);
    }
  }

  lemma WellKeyedTotal(dir: Direction, fields: seq<string>, docs: set<Document>, d: Document, e: Document)
    requires WellKeyed(docs, fields) && d in docs && e in docs && d != e
    ensures Precedes(BuildSort(dir, fields), d, e) || Precedes(BuildSort(dir, fields), e, d)
  {
    assert Alike(d, e, fields) && !SameKey(d, e, fields);
    PrecedesTotal(dir, fields, d, e);
  }

  lemma InsertIntoListing(dir: Direction, fields: seq<string>, docs: set<Document>, xs: seq<Document>, d: Document)
    requires WellKeyed(docs, fields) && d in docs
    requires Sorted(BuildSort(dir, fields), xs) && Elements(xs) <= docs - {d}
    ensures Sorted(BuildSort(dir, fields), Insert(BuildSort(dir, fields), xs, d))
    ensures Elements(Insert(BuildSort(dir, fields), xs, d)) == Elements(xs) + {d}
  {
    var spec := BuildSort(dir, fields);
    forall i | 0 <= i < |xs| ensures Precedes(spec, xs[i], d) || Precedes(spec, d, xs[i]) {
      assert xs[i] in Elements(xs);
      WellKeyedTotal(dir, fields, docs, xs[i], d);
    }
    InsertKeepsSorted(spec, xs, d);
  }

  /** The documents of a set in sorted order. */
  ghost function Listing(dir: Direction, fields: seq<string>, docs: set<Document>): seq<Document>
    requires WellKeyed(docs, fields)
  {
    if docs == {} then []
    else
      var d :| d in docs;
      Insert(BuildSort(dir, fields), Listing(dir, fields, docs - {d}), d)
  }

  lemma {:induction false} ListingSorts(dir: Direction, fields: seq<string>, docs: set<Document>)
    requires WellKeyed(docs, fields)
    ensures Sorted(BuildSort(dir, fields), Listing(dir, fields, docs))
    ensures Elements(Listing(dir, fields, docs)) == docs
  {
    if docs != {} {
      var d :| && d in docs
               && Listing(dir, fields, docs) == Insert(BuildSort(dir, fields), Listing(dir, fields, docs - {d}), d);
      ListingSorts(dir, fields, docs - {d});
      InsertIntoListing(dir, fields, docs, Listing(dir, fields, docs - {d}), d);
    }
  }

  /** A set has one sorted listing, so any answer that is sorted and complete is that one. */
  lemma {:induction false} SortedUnique(spec: SortSpec, xs: seq<Document>, ys: seq<Document>)
    requires Sorted(spec, xs) && Sorted(spec, ys)
    requires Elements(xs) == Elements(ys)
    ensures xs == ys
  {
    assert xs != [] ==> xs[0] in Elements(ys);
    assert ys != [] ==> ys[0] in Elements(xs);
    if xs != [] {
      PrecedesStrict(spec, xs[0], ys[0], xs[0]);
      assert xs[0] == ys[0];
      TailElements(spec, xs);
      TailElements(spec, ys);
      SortedUnique(spec, xs[1..], ys[1..]);
      assert xs == [xs[0]] + xs[1..] && ys == [ys[0]] + ys[1..];
    }
  }

  lemma TailElements(spec: SortSpec, xs: seq<Document>)
    requires xs != [] && Sorted(spec, xs)
    ensures Elements(xs[1..]) == Elements(xs) - {xs[0]}
  {
    PrecedesStrict(spec, xs[0], xs[0], xs[0]);
    assert xs == [xs[0]] + xs[1..];
    forall d | d in Elements(xs[1..]) ensures d != xs[0] {
      var i :| 0 <= i < |xs[1..]| && xs[1..][i] == d;
      assert Precedes(spec, xs[0], xs[i + 1]);
    }
  }

  /** In a sorted list, what follows (precedes) position `p` is what sorts after (before) it. */
  lemma SplitAt(spec: SortSpec, xs: seq<Document>, p: nat)
    requires Sorted(spec, xs) && p < |xs|
    ensures Elements(xs[p + 1..]) == set d | d in Elements(xs) && Precedes(spec, xs[p], d)
    ensures Elements(xs[..p]) == set d | d in Elements(xs) && Precedes(spec, d, xs[p])
  {
    forall i | 0 <= i < |xs|
      ensures Precedes(spec, xs[p], xs[i]) <==> p < i
      ensures Precedes(spec, xs[i], xs[p]) <==> i < p
    {
      PrecedesStrict(spec, xs[p], xs[i], xs[p]);
    }
  }

  /** `list.reverse()`. */
  function Reverse(xs: seq<Document>): seq<Document> {
    seq(|xs|, i requires 0 <= i < |xs| => xs[|xs| - 1 - i])
  }

  /** The ascending listing is the descending one read backwards. */
  lemma ListingReverses(fields: seq<string>, docs: set<Document>)
    requires WellKeyed(docs, fields)
    ensures Listing(PREV, fields, docs) == Reverse(Listing(NEXT, fields, docs))
  {
    var down := Listing(NEXT, fields, docs);
    var up := Reverse(down);
    ListingSorts(NEXT, fields, docs);
    ListingSorts(PREV, fields, docs);
    forall i, j | 0 <= i < j < |up| ensures Precedes(BuildSort(PREV, fields), up[i], up[j]) {
      BuildSortOrdersKeys(fields, up[i], up[j]);
      BuildSortOrdersKeys(fields, up[j], up[i]);
    }
    forall d | d in down ensures d in up {
      var i :| 0 <= i < |down| && down[i] == d;
      assert up[|down| - 1 - i] == d;
    }
    assert Elements(up) == docs;
    SortedUnique(BuildSort(PREV, fields), Listing(PREV, fields, docs), up);
  }

  /** The `size` documents of a descending list that come first, or last when going backwards. */
  ghost function Nearest(dir: Direction, all: seq<Document>, size: nat): seq<Document> {
    if |all| <= size then all else if dir == PREV then all[|all| - size..] else all[..size]
  }

  lemma NearestReversed(all: seq<Document>, size: nat)
    ensures var m := if size < |all| then size else |all|;
            Reverse(Reverse(all)[..m]) == Nearest(PREV, all, size)
  {
  }

  /** Going forward from position `p`, the nearest documents are the slice that starts there. */
  lemma NearestFromPosition(all: seq<Document>, p: nat, size: nat)
    requires p <= |all| && size >= 1
    ensures var end := if p + size < |all| then p + size else |all|;
            var items := Nearest(NEXT, all[p..], size);
            && items == all[p..end]
            && (items != [] ==> items[|items| - 1] == all[end - 1])
            && (|all[p..]| > size <==> p + size < |all|)
  {
  }
}
