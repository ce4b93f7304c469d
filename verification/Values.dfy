/** The values a document or a cursor can hold, and the order MongoDB compares them by. */
module Values {

  predicate IsLowerHex(c: char) {
    '0' <= c <= '9' || 'a' <= c <= 'f'
  }

  /** The text of an ObjectId: 24 lower-case hexadecimal digits. */
  type Hex24 = s: string | |s| == 24 && forall i | 0 <= i < |s| :: IsLowerHex(s[i])
    witness "000000000000000000000000"

  /** DateTime carries an instant in microseconds. Number carries a finite int or float as a
      count of 2^-1074, the finest step of a double, so that its order is the numeric one. */
  datatype Value =
    | Null
    | Bool(b: bool)
    | Number(n: int)
    | Text(s: string)
    | DateTime(t: int)
    | ObjectId(oid: Hex24)
    | List(items: seq<Value>)
    | Dict(entries: map<string, Value>)

  type Document = map<string, Value>

  /** Python's `doc.get(field)`: a missing field reads as null. */
  function Get(d: Document, field: string): Value {
    if field in d then d[field] else Null
  }

  predicate TextLess(x: string, y: string) {
    if y == [] then false
    else if x == [] then true
    else x[0] < y[0] || (x[0] == y[0] && TextLess(x[1..], y[1..]))
  }

  /** The first text is a proper prefix of the second, or has the smaller character where they first differ. */
  ghost predicate Alphabetical(x: string, y: string) {
    || x < y
    || exists i | 0 <= i < |x| && i < |y| :: x[..i] == y[..i] && x[i] < y[i]
  }

  lemma {:induction false} TextLessAlphabetical(x: string, y: string)
    ensures TextLess(x, y) <==> Alphabetical(x, y)
  {
    if x != [] && y != [] && x[0] == y[0] {
      TextLessAlphabetical(x[1..], y[1..]);
      assert x == [x[0]] + x[1..] && y == [y[0]] + y[1..];
      if i :| 0 <= i < |x[1..]| && i < |y[1..]| && x[1..][..i] == y[1..][..i] && x[1..][i] < y[1..][i] {
        assert x[..i + 1] == [x[0]] + x[1..][..i] && y[..i + 1] == [y[0]] + y[1..][..i];
        assert x[i + 1] < y[i + 1];
      }
      if i :| 0 <= i < |x| && i < |y| && x[..i] == y[..i] && x[i] < y[i] {
        assert x[1..][..i - 1] == x[..i][1..] && y[1..][..i - 1] == y[..i][1..];
        assert x[1..][i - 1] < y[1..][i - 1];
      }
    } else if x != [] && y != [] {
      forall i | 0 < i <= |x| && i <= |y| ensures x[..i] != y[..i] {
        assert x[..i][0] == x[0] && y[..i][0] == y[0];
      }
      assert x[..0] == y[..0];
    }
  }

  /** `$lt` compares only values of one kind; across kinds it is false. */
  predicate Less(a: Value, b: Value) {
    match (a, b)
    case (Bool(x), Bool(y)) => !x && y
    case (Number(x), Number(y)) => x < y
    case (Text(x), Text(y)) => TextLess(x, y)
    case (DateTime(x), DateTime(y)) => x < y
    case (ObjectId(x), ObjectId(y)) => TextLess(x, y)
    case (_, _) => false
  }

  /** Both values are of the same totally ordered kind. */
  predicate Comparable(a: Value, b: Value) {
    || (a.Bool? && b.Bool?)
    || (a.Number? && b.Number?)
    || (a.Text? && b.Text?)
    || (a.DateTime? && b.DateTime?)
    || (a.ObjectId? && b.ObjectId?)
  }

  lemma {:induction false} TextLessTotal(x: string, y: string)
    ensures !TextLess(x, x)
    ensures TextLess(x, y) || x == y || TextLess(y, x)
  {
    if x != [] {
      TextLessTotal(x[1..], if y == [] then [] else y[1..]);
      assert x == [x[0]] + x[1..];
      assert y != [] ==> y == [y[0]] + y[1..];
    }
  }

  lemma {:induction false} TextLessTransitive(x: string, y: string, z: string)
    requires TextLess(x, y) && TextLess(y, z)
    ensures TextLess(x, z)
  {
    if x != [] && x[0] == y[0] == z[0] {
      TextLessTransitive(x[1..], y[1..], z[1..]);
    }
  }

  lemma LessTotal(a: Value, b: Value)
    requires Comparable(a, b)
    ensures Less(a, b) || a == b || Less(b, a)
  {
    match (a, b)
    case (Text(x), Text(y)) => TextLessTotal(x, y);
    case (ObjectId(x), ObjectId(y)) => TextLessTotal(x, y);
    case (_, _) =>
  }

  lemma LessStrict(a: Value, b: Value, c: Value)
    ensures !Less(a, a)
    ensures Less(a, b) && Less(b, c) ==> Less(a, c)
  {
    match a
    case Text(x) =>
      TextLessTotal(x, x);
      if Less(a, b) && Less(b, c) { TextLessTransitive(x, b.s, c.s); }
    case ObjectId(x) =>
      TextLessTotal(x, x);
      if Less(a, b) && Less(b, c) { TextLessTransitive(x, b.oid, c.oid); }
    case _ =>
  }
}

/** Key tuples, their lexicographic order, and MongoDB sort specifications. */
module Keys {
  import opened Values

  datatype Direction = NEXT | PREV

  /** The key tuple of a document: its sort fields, in order. */
  function Key(d: Document, fields: seq<string>): seq<Value> {
    seq(|fields|, i requires 0 <= i < |fields| => Get(d, fields[i]))
  }

  /** Lexicographic order on key tuples. */
  predicate KeyLess(x: seq<Value>, y: seq<Value>) {
    && x != [] && y != []
    && if x[0] == y[0] then KeyLess(x[1..], y[1..]) else Less(x[0], y[0])
  }

  /** Lexicographic order, said with the position that decides. */
  ghost predicate LessAt(x: seq<Value>, y: seq<Value>, i: int) {
    && 0 <= i < |x| && i < |y|
    && (forall j | 0 <= j < i :: x[j] == y[j])
    && Less(x[i], y[i])
  }

  lemma {:induction false} KeyLessDecidedAt(x: seq<Value>, y: seq<Value>)
    ensures KeyLess(x, y) <==> exists i :: LessAt(x, y, i)
  {
    if x != [] && y != [] {
      LessStrict(x[0], x[0], x[0]);
      KeyLessDecidedAt(x[1..], y[1..]);
      if KeyLess(x, y) {
        if x[0] != y[0] {
          assert LessAt(x, y, 0);
        } else {
          var i :| LessAt(x[1..], y[1..], i);
          assert LessAt(x, y, i + 1);
        }
      }
      if i :| LessAt(x, y, i) && x[0] == y[0] {
        assert LessAt(x[1..], y[1..], i - 1);
      }
    }
  }

  type SortSpec = seq<(string, int)>

  /** defaults.py, `build_sort`: every field in the same order. */
  function BuildSort(direction: Direction, fields: seq<string>): SortSpec {
    var order := if direction == NEXT then -1 else 1;
    seq(|fields|, i requires 0 <= i < |fields| => (fields[i], order))
  }

  /** `a` is listed strictly before `b` by a MongoDB sort specification. */
  predicate Precedes(spec: SortSpec, a: Document, b: Document) {
    && spec != []
    && var (field, order) := spec[0];
    var x, y := Get(a, field), Get(b, field);
    if x == y then Precedes(spec[1..], a, b)
    else if order == -1 then Less(y, x)
    else Less(x, y)
  }

  /** Sorting by the specification built for NEXT (PREV) is descending (ascending) key order. */
  lemma {:induction false} BuildSortOrdersKeys(fields: seq<string>, a: Document, b: Document)
    ensures Precedes(BuildSort(NEXT, fields), a, b) <==> KeyLess(Key(b, fields), Key(a, fields))
    ensures Precedes(BuildSort(PREV, fields), a, b) <==> KeyLess(Key(a, fields), Key(b, fields))
  {
    if fields != [] {
      BuildSortOrdersKeys(fields[1..], a, b);
      assert BuildSort(NEXT, fields)[1..] == BuildSort(NEXT, fields[1..]);
      assert BuildSort(PREV, fields)[1..] == BuildSort(PREV, fields[1..]);
      assert Key(a, fields)[1..] == Key(a, fields[1..]);
      assert Key(b, fields)[1..] == Key(b, fields[1..]);
    }
  }

  lemma {:induction false} PrecedesStrict(spec: SortSpec, a: Document, b: Document, c: Document)
    ensures !Precedes(spec, a, a)
    ensures Precedes(spec, a, b) && Precedes(spec, b, c) ==> Precedes(spec, a, c)
  {
    if spec != [] {
      var f := spec[0].0;
      LessStrict(Get(a, f), Get(b, f), Get(c, f));
      LessStrict(Get(c, f), Get(b, f), Get(a, f));
      PrecedesStrict(spec[1..], a, b, c);
    }
  }

  /** Field by field, both documents hold values of one ordered kind. */
  ghost predicate Alike(d: Document, e: Document, fields: seq<string>) {
    forall i | 0 <= i < |fields| :: Comparable(Get(d, fields[i]), Get(e, fields[i]))
  }

  ghost predicate SameKey(d: Document, e: Document, fields: seq<string>) {
    Key(d, fields) == Key(e, fields)
  }

  lemma {:induction false} PrecedesTotal(direction: Direction, fields: seq<string>, a: Document, b: Document)
    requires Alike(a, b, fields) && !SameKey(a, b, fields)
    ensures Precedes(BuildSort(direction, fields), a, b) || Precedes(BuildSort(direction, fields), b, a)
  {
    if fields != [] {
      LessTotal(Get(a, fields[0]), Get(b, fields[0]));
      if Get(a, fields[0]) == Get(b, fields[0]) {
        assert Key(a, fields) == [Get(a, fields[0])] + Key(a, fields[1..]);
        assert Key(b, fields) == [Get(b, fields[0])] + Key(b, fields[1..]);
        assert BuildSort(direction, fields)[1..] == BuildSort(direction, fields[1..]);
        PrecedesTotal(direction, fields[1..], a, b);
      }
    }
  }

  /** What keyset paging asks of a collection: every sort field present, of one ordered
      kind per field, and no two documents with the same key. */
  ghost predicate WellKeyed(docs: set<Document>, fields: seq<string>) {
    && (forall d, e {:trigger Alike(d, e, fields)} | d in docs && e in docs :: Alike(d, e, fields))
    && (forall d, e {:trigger SameKey(d, e, fields)} | d in docs && e in docs && SameKey(d, e, fields) :: d == e)
  }
}
