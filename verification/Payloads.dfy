/** The cursor payload and the tagging that lets datetimes survive JSON. */
module Payloads {
  import opened Wrappers
  import opened Values
  import opened Keys

  datatype CursorError =
    | MissingField(field: string)
    | InvalidObjectId(raw: Value)
    | Malformed
    | NonAsciiSignature
    | BadSignature
    | Undecodable
    | InvalidPayload
    | Expired
    | NaiveExpiry
    | UnencodableText
    | NotSerializable

  datatype SortDirection = ASC | DESC

  /** When a payload expires, in microseconds: a datetime with a time zone, or one without. */
  datatype Expiry = Aware(t: int) | Naive(t: int)

  datatype CursorPayload = CursorPayload(
    version: int,
    values: map<string, Value>,
    direction: Direction,
    sort: SortDirection,
    expiresAt: Option<Expiry>)

  /** A text form of instants, such as `isoformat` with `fromisoformat`. */
  datatype DateText = DateText(format: int -> string, parse: string -> Option<int>) {
    ghost predicate Lawful() {
      forall t :: parse(format(t)) == Some(t)
    }
  }

  const DATETIME_TAG := "$dt"

  /** A mapping whose only key is the tag. */
  predicate Tagged(v: Value) {
    v.Dict? && v.entries.Keys == {DATETIME_TAG}
  }

  function DecodeValue(dates: DateText, v: Value): Result<Value, CursorError> {
    if !Tagged(v) then Ok(v)
    else
      match v.entries[DATETIME_TAG]
      case Text(s) =>
        (match dates.parse(s)
         case Some(t) => Ok(DateTime(t))
         case None => Err(InvalidPayload))
      case _ => Err(InvalidPayload)
  }

  /** models.py, `_decode_values`: runs whenever a payload is constructed. */
  function DecodeValues(dates: DateText, values: map<string, Value>): Result<map<string, Value>, CursorError> {
    if forall k | k in values :: DecodeValue(dates, values[k]).Ok?
    then Ok(map k | k in values :: DecodeValue(dates, values[k]).value)
    else Err(InvalidPayload)
  }

  /** models.py, `_encode_values`: runs when a payload is dumped to JSON. */
  function EncodeValues(dates: DateText, values: map<string, Value>): map<string, Value> {
    map k | k in values ::
      if values[k].DateTime? then Dict(map[DATETIME_TAG := Text(dates.format(values[k].t))]) else values[k]
  }

  /** Somewhere in the value is an ObjectId. */
  predicate HoldsObjectId(v: Value) {
    match v
    case ObjectId(_) => true
    case List(items) => exists x | x in items :: HoldsObjectId(x)
    case Dict(entries) => exists k | k in entries :: HoldsObjectId(entries[k])
    case _ => false
  }

  /** A value JSON text can carry as it is. */
  predicate IsJson(v: Value) {
    match v
    case DateTime(_) => false
    case ObjectId(_) => false
    case List(items) => forall x | x in items :: IsJson(x)
    case Dict(entries) => forall k | k in entries :: IsJson(entries[k])
    case _ => true
  }

  /** A value that comes back from a cursor unchanged: a datetime on its own, or plain JSON. */
  predicate Carriable(v: Value) {
    v.DateTime? || IsJson(v)
  }

  /** No value is a tagged mapping. */
  ghost predicate Normal(values: map<string, Value>) {
    forall k | k in values :: !Tagged(values[k])
  }

  /** What a constructed payload holds is normal, and construction leaves normal values alone. */
  lemma DecodeValuesNormalises(dates: DateText, values: map<string, Value>)
    ensures DecodeValues(dates, values).Ok? ==>
              && Normal(DecodeValues(dates, values).value)
              && DecodeValues(dates, values).value.Keys == values.Keys
    ensures DecodeValues(dates, values) == Ok(values) <==>
            forall k | k in values :: !(values[k].Dict? && values[k].entries.Keys == {"$dt"})
  {
    if Normal(values) {
      assert DecodeValues(dates, values).value == values;
    }
    if k :| k in values && Tagged(values[k]) && DecodeValues(dates, values).Ok? {
      assert DecodeValues(dates, values).value[k].DateTime?;
    }
  }

  /** Decoding undoes encoding exactly on the values a constructed payload can hold: datetimes
      stay datetimes, texts stay texts whatever they spell. */
  lemma TaggingRoundTrip(dates: DateText, values: map<string, Value>)
    requires dates.Lawful()
    ensures DecodeValues(dates, EncodeValues(dates, values)) == Ok(values) <==>
            forall k | k in values :: !(values[k].Dict? && values[k].entries.Keys == {"$dt"})
  {
    var encoded := EncodeValues(dates, values);
    if Normal(values) {
      forall k | k in values ensures DecodeValue(dates, encoded[k]) == Ok(values[k]) {
        if values[k].DateTime? {
          var e := encoded[k].entries;
          assert e[DATETIME_TAG] == Text(dates.format(values[k].t));
        }
      }
      assert DecodeValues(dates, encoded).value == values;
    } else {
      DecodeValuesNormalises(dates, encoded);
    }
  }
}
