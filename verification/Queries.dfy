/** The MongoDB query language the strategy uses, and the keyset query it builds. */
module Queries {
  import opened Wrappers
  import opened Values
  import opened Keys
  import opened Payloads

  datatype Condition = Eq(v: Value) | Lt(v: Value) | Gt(v: Value)

  /** `Where` stands for any other operator a base filter may hold. */
  datatype Query =
    | Fields(conditions: map<string, Condition>)
    | And(parts: seq<Query>)
    | Or(parts: seq<Query>)
    | Where(test: Document -> bool)

  predicate Holds(c: Condition, v: Value) {
    match c
    case Eq(w) => v == w
    case Lt(w) => Less(v, w)
    case Gt(w) => Less(w, v)
  }

  predicate Matches(d: Document, q: Query) {
    match q
    case Fields(conditions) => forall f | f in conditions :: Holds(conditions[f], Get(d, f))
    case And(parts) => forall i | 0 <= i < |parts| :: Matches(d, parts[i])
    case Or(parts) => exists i | 0 <= i < |parts| :: Matches(d, parts[i])
    case Where(test) => test(d)
  }

  /** Python truthiness of a query mapping. */
  predicate IsEmpty(q: Query) {
    q.Fields? && q.conditions == map[]
  }

  predicate IsHexDigit(c: char) {
    IsLowerHex(c) || 'A' <= c <= 'F'
  }

  function LowerHex(c: char): (r: char)
    requires IsHexDigit(c)
    ensures IsLowerHex(r) && (IsLowerHex(c) ==> r == c)
  {
    if IsLowerHex(c) then c else (c as int + 32) as char
  }

  /** `ObjectId(raw)`: accepts 24 hexadecimal digits in either case, or an ObjectId. */
  function ParseObjectId(raw: Value): Result<Value, CursorError> {
    match raw
    case ObjectId(_) => Ok(raw)
    case Text(s) =>
      if |s| == 24 && forall i | 0 <= i < |s| :: IsHexDigit(s[i])
      then Ok(ObjectId(seq(24, i requires 0 <= i < |s| => LowerHex(s[i]))))
      else Err(InvalidObjectId(raw))
    case _ => Err(InvalidObjectId(raw))
  }

  /** The nested `coerce` of `build_cursor_query`. */
  function Coerce(values: map<string, Value>, field: string): Result<Value, CursorError> {
    if field !in values then Err(MissingField(field))
    else if field == "_id" then ParseObjectId(values[field])
    else Ok(values[field])
  }

  /** A cursor value can be used exactly if it is there and, for `_id`, is an ObjectId or the text of one: 24
      hexadecimal digits of either case. A value of another field is used as it is. */
  lemma CoercesExactlyWhen(values: map<string, Value>, field: string)
    ensures Coerce(values, field).Ok? <==>
            && field in values
            && (field == "_id" ==>
                  || values[field].ObjectId?
                  || (values[field].Text? && |values[field].s| == 24
                      && forall c | c in values[field].s :: '0' <= c <= '9' || 'a' <= c <= 'f' || 'A' <= c <= 'F'))
    ensures field !in values ==> Coerce(values, field) == Err(MissingField(field))
    ensures field in values && (field != "_id" || values[field].ObjectId?) ==>
              Coerce(values, field) == Ok(values[field])
    ensures Coerce(values, field).Ok? && field == "_id" && values[field].Text? ==>
              && Coerce(values, field).value.ObjectId?
              && forall i | 0 <= i < 24 :: SameHexDigit(Coerce(values, field).value.oid[i], values[field].s[i])
  {
    if field in values && field == "_id" && values[field].Text? {
      var s := values[field].s;
      assert forall i | 0 <= i < |s| :: s[i] in s;
    }
  }

  /** The lower-case form of a hexadecimal digit. */
  predicate SameHexDigit(lower: char, c: char) {
    || (('0' <= c <= '9' || 'a' <= c <= 'f') && lower == c)
    || ('A' <= c <= 'F' && lower as int - 'a' as int == c as int - 'A' as int)
  }

  /** The cursor's key tuple, or the error of the first field that has none. */
  function CursorKey(values: map<string, Value>, fields: seq<string>): Result<seq<Value>, CursorError> {
    if fields == [] then Ok([])
    else
      var v :- Coerce(values, fields[0]);
      var rest :- CursorKey(values, fields[1..]);
      Ok([v] + rest)
  }

  lemma {:induction false} CursorKeyAt(values: map<string, Value>, fields: seq<string>)
    ensures CursorKey(values, fields).Ok? <==> forall i | 0 <= i < |fields| :: Coerce(values, fields[i]).Ok?
    ensures CursorKey(values, fields).Ok? ==>
              && |CursorKey(values, fields).value| == |fields|
              && forall i | 0 <= i < |fields| :: Coerce(values, fields[i]) == Ok(CursorKey(values, fields).value[i])
    ensures CursorKey(values, fields).Err? ==>
              exists i | 0 <= i < |fields| ::
                && Coerce(values, fields[i]) == Err(CursorKey(values, fields).error)
                && forall j | 0 <= j < i :: Coerce(values, fields[j]).Ok?
  {
    if fields != [] {
      var rest := fields[1..];
      CursorKeyAt(values, rest);
      assert forall i | 0 <= i < |rest| :: rest[i] == fields[i + 1];
      if Coerce(values, fields[0]).Ok? && CursorKey(values, rest).Err? {
        var i :| 0 <= i < |rest| && Coerce(values, rest[i]) == Err(CursorKey(values, rest).error)
                 && forall j | 0 <= j < i :: Coerce(values, rest[j]).Ok?;
        assert Coerce(values, fields[i + 1]) == Err(CursorKey(values, fields).error);
        assert forall j | 0 <= j < i + 1 :: Coerce(values, fields[j]).Ok? by {
          forall j | 0 <= j < i + 1 ensures Coerce(values, fields[j]).Ok? {
            if j > 0 { assert fields[j] == rest[j - 1]; }
          }
        }
      }
      if forall i | 0 <= i < |fields| :: Coerce(values, fields[i]).Ok? {
        forall i | 0 <= i < |rest| ensures Coerce(values, rest[i]).Ok? {
          assert rest[i] == fields[i + 1];
        }
      }
    }
  }

  /** Which documents a cursor at `key` selects in a direction. */
  ghost predicate Beyond(dir: Direction, d: Document, fields: seq<string>, key: seq<Value>) {
    if dir == NEXT then KeyLess(Key(d, fields), key) else KeyLess(key, Key(d, fields))
  }

  function Strictly(dir: Direction, v: Value): Condition {
    if dir == NEXT then Lt(v) else Gt(v)
  }

  /** Equalities on the first `n` fields; a repeated field is written again. */
  function Prefix(fields: seq<string>, key: seq<Value>, n: nat): map<string, Condition>
    requires n <= |fields| == |key|
  {
    if n == 0 then map[] else Prefix(fields, key, n - 1)[fields[n - 1] := Eq(key[n - 1])]
  }

  /** Repeated fields hold one value. */
  ghost predicate Consistent(fields: seq<string>, key: seq<Value>) {
    && |fields| == |key|
    && forall i, j | 0 <= i < |fields| && 0 <= j < |fields| && fields[i] == fields[j] :: key[i] == key[j]
  }

  function Clause(dir: Direction, fields: seq<string>, key: seq<Value>, n: nat): Query
    requires n < |fields| == |key|
  {
    Fields(Prefix(fields, key, n)[fields[n] := Strictly(dir, key[n])])
  }

  lemma {:induction false} PrefixHolds(fields: seq<string>, key: seq<Value>, n: nat)
    requires n <= |fields| && Consistent(fields, key)
    ensures forall f :: f in Prefix(fields, key, n) <==> f in fields[..n]
    ensures forall i | 0 <= i < n :: Prefix(fields, key, n)[fields[i]] == Eq(key[i])
  {
    if n > 0 {
      PrefixHolds(fields, key, n - 1);
      assert fields[..n] == fields[..n - 1] + [fields[n - 1]];
      forall i | 0 <= i < n ensures Prefix(fields, key, n)[fields[i]] == Eq(key[i]) {
        if fields[i] != fields[n - 1] { assert fields[i] in fields[..n - 1]; }
      }
    }
  }

  /** A clause holds exactly when its last field decides strictly and the other fields before it are equal. */
  lemma ClauseHolds(dir: Direction, fields: seq<string>, key: seq<Value>, n: nat, d: Document)
    requires n < |fields| && Consistent(fields, key)
    ensures Matches(d, Clause(dir, fields, key, n)) <==>
            && Holds(Strictly(dir, key[n]), Get(d, fields[n]))
            && forall i | 0 <= i < n && fields[i] != fields[n] :: Get(d, fields[i]) == key[i]
  {
    PrefixHolds(fields, key, n);
    var c := Clause(dir, fields, key, n).conditions;
    forall i | 0 <= i < n ensures fields[i] in c {
      assert fields[i] in fields[..n];
    }
    if Matches(d, Clause(dir, fields, key, n)) {
      assert fields[n] in c;
      forall i | 0 <= i < n && fields[i] != fields[n] ensures Get(d, fields[i]) == key[i] {
        assert c[fields[i]] == Eq(key[i]);
      }
    }
  }

  /** A document satisfies some clause exactly when its key is lexicographically beyond the cursor's,
      also when a sort field is repeated. */
  lemma ClausesMeanBeyond(dir: Direction, fields: seq<string>, key: seq<Value>, d: Document)
    requires Consistent(fields, key)
    ensures (exists n | 0 <= n < |fields| :: Matches(d, Clause(dir, fields, key, n))) <==> Beyond(dir, d, fields, key)
  {
    var x := Key(d, fields);
    KeyLessDecidedAt(x, key);
    KeyLessDecidedAt(key, x);
    if n :| 0 <= n < |fields| && Matches(d, Clause(dir, fields, key, n)) {
      var m := FirstOccurrence(fields, n);
      ClauseHolds(dir, fields, key, n, d);
      assert if dir == NEXT then LessAt(x, key, m) else LessAt(key, x, m);
    }
    if Beyond(dir, d, fields, key) {
      var n :| if dir == NEXT then LessAt(x, key, n) else LessAt(key, x, n);
      ClauseHolds(dir, fields, key, n, d);
    }
  }

  ghost function FirstOccurrence(fields: seq<string>, n: nat): (m: nat)
    requires n < |fields|
    ensures m <= n && fields[m] == fields[n]
    ensures forall i | 0 <= i < m :: fields[i] != fields[n]
    decreases n
  {
    if i :| 0 <= i < n && fields[i] == fields[n] then FirstOccurrence(fields, i) else n
  }

  /** defaults.py, `build_cursor_query`: the keyset query of a cursor. */
  method BuildCursorQuery(dir: Direction, values: map<string, Value>, fields: seq<string>)
    returns (r: Result<Query, CursorError>)
    requires fields != []
    ensures r.Ok? <==> CursorKey(values, fields).Ok?
    ensures r.Err? ==> r.error == CursorKey(values, fields).error
    ensures r.Ok? ==>
              forall d: Document :: Matches(d, r.value) <==> Beyond(dir, d, fields, CursorKey(values, fields).value)
  {
    CursorKeyAt(values, fields);
    if |fields| == 1 {
      var field := fields[0];
      var v :- Coerce(values, field);
      r := Ok(Fields(map[field := Strictly(dir, v)]));
      assert CursorKey(values, fields).value == [v];
      forall d: Document ensures Matches(d, r.value) <==> Beyond(dir, d, fields, [v]) {
        ClausesMeanBeyond(dir, fields, [v], d);
        assert Clause(dir, fields, [v], 0) == r.value;
      }
      return;
    }
    ghost var key := if CursorKey(values, fields).Ok? then CursorKey(values, fields).value else [];
    var clauses: seq<Query> := [];
    for i := 0 to |fields|
      invariant forall j | 0 <= j < i :: Coerce(values, fields[j]).Ok?
      invariant |clauses| == i
      invariant CursorKey(values, fields).Ok? ==>
                  forall j | 0 <= j < i :: clauses[j] == Clause(dir, fields, key, j)
    {
      var clause: map<string, Condition> := map[];
      for j := 0 to i
        invariant CursorKey(values, fields).Ok? ==> clause == Prefix(fields, key, j)
      {
        // An earlier clause has coerced this field without error.
        clause := clause[fields[j] := Eq(Coerce(values, fields[j]).value)];
      }
      var v :- Coerce(values, fields[i]);
      clause := clause[fields[i] := Strictly(dir, v)];
      clauses := clauses + [Fields(clause)];
    }
    forall d: Document ensures Matches(d, Or(clauses)) <==> Beyond(dir, d, fields, key) {
      ClausesMeanBeyond(dir, fields, key, d);
    }
    r := Ok(Or(clauses));
  }

  /** What a page after a cursor value holds, when one field sorts: the values below it by the order of its
      kind, and nothing that lacks the field or holds another kind. */
  lemma OneFieldPage(d: Document, field: string, v: Value)
    ensures Beyond(NEXT, d, [field], [v]) ==> field in d && Comparable(d[field], v)
    ensures field in d && d[field].Number? && v.Number? ==>
              && (Beyond(NEXT, d, [field], [v]) <==> d[field].n < v.n)
              && (Beyond(PREV, d, [field], [v]) <==> d[field].n > v.n)
    ensures field in d && d[field].DateTime? && v.DateTime? ==>
              && (Beyond(NEXT, d, [field], [v]) <==> d[field].t < v.t)
              && (Beyond(PREV, d, [field], [v]) <==> d[field].t > v.t)
    ensures field in d && d[field].Bool? && v.Bool? ==> (Beyond(NEXT, d, [field], [v]) <==> !d[field].b && v.b)
    ensures field in d && d[field].Text? && v.Text? ==>
              (Beyond(NEXT, d, [field], [v]) <==> Alphabetical(d[field].s, v.s))
    ensures field in d && d[field].ObjectId? && v.ObjectId? ==>
              (Beyond(NEXT, d, [field], [v]) <==> Alphabetical(d[field].oid, v.oid))
  {
    KeyLessDecidedAt(Key(d, [field]), [v]);
    KeyLessDecidedAt([v], Key(d, [field]));
    assert LessAt(Key(d, [field]), [v], 0) <==> Less(Get(d, field), v);
    assert LessAt([v], Key(d, [field]), 0) <==> Less(v, Get(d, field));
    if field in d && d[field].Text? && v.Text? { TextLessAlphabetical(d[field].s, v.s); }
    if field in d && d[field].ObjectId? && v.ObjectId? { TextLessAlphabetical(d[field].oid, v.oid); }
  }
}
