/** The signed cursor encoder: JSON, base64url, and an HMAC over the encoded text. */
module HmacCursors {
  import opened Wrappers
  import opened Values
  import opened Keys
  import opened Payloads
  import Base64 = Base64Url

  /** Code outside the repository. `dates` is the isoformat pair; `stamp` is pydantic's text of a datetime
      among the values, `writeExpiry` that of an expiry; `readExpiry` and `readVersion` are pydantic's readings
      of those fields, with whatever they coerce, None for a validation error; `dumps` and `loads` are JSON
      text as bytes, `mac` is HMAC-SHA256; `unit` is the count of the number 1. */
  datatype Externals = Externals(
    unit: Positive,
    dates: DateText,
    stamp: int -> string,
    writeExpiry: Expiry -> string,
    readExpiry: Value -> Option<Option<Expiry>>,
    readVersion: Value -> Option<int>,
    dumps: Value -> seq<Base64.byte>,
    loads: seq<Base64.byte> -> Option<Value>,
    mac: (string, string) -> seq<Base64.byte>)
  {
    function VersionValue(version: int): Value {
      Number(version * unit)
    }

    function ExpiryValue(expiresAt: Option<Expiry>): Value {
      if expiresAt.None? then Null else Text(writeExpiry(expiresAt.value))
    }

    /** Each reading undoes the writing. */
    ghost predicate Lawful() {
      && dates.Lawful()
      && (forall v :: readVersion(VersionValue(v)) == Some(v))
      && (forall e :: readExpiry(ExpiryValue(e)) == Some(e))
      && forall j | IsJson(j) :: loads(dumps(j)) == Some(j)
    }
  }

  type Positive = n: int | 0 < n witness 1

  datatype HmacConfig = HmacConfig(secretKey: string, expiresInSeconds: int)

  const MICROSECONDS := 1_000_000

  /** pydantic's dump of an untyped value in JSON mode: a datetime becomes text, an ObjectId is an error. */
  function Dump(stamp: int -> string, v: Value): Result<Value, CursorError> {
    match v
    case DateTime(t) => Ok(Text(stamp(t)))
    case ObjectId(_) => Err(NotSerializable)
    case List(items) =>
      if forall x | x in items :: Dump(stamp, x).Ok?
      then Ok(List(seq(|items|, i requires 0 <= i < |items| => assert items[i] in items; Dump(stamp, items[i]).value)))
      else Err(NotSerializable)
    case Dict(entries) =>
      if forall k | k in entries :: Dump(stamp, entries[k]).Ok?
      then Ok(Dict(map k | k in entries :: Dump(stamp, entries[k]).value))
      else Err(NotSerializable)
    case _ => Ok(v)
  }

  lemma {:induction false} DumpIsJson(stamp: int -> string, v: Value)
    ensures Dump(stamp, v).Ok? ==> IsJson(Dump(stamp, v).value)
    ensures Dump(stamp, v) == Ok(v) <==> IsJson(v)
  {
    match v
    case List(items) =>
      forall x | x in items ensures Dump(stamp, x).Ok? ==> IsJson(Dump(stamp, x).value)
        ensures Dump(stamp, x) == Ok(x) <==> IsJson(x) {
        DumpIsJson(stamp, x);
      }
      if IsJson(v) {
        assert Dump(stamp, v).value.items == items;
      }
      if Dump(stamp, v) == Ok(v) {
        forall x | x in items ensures IsJson(x) {
          var i :| 0 <= i < |items| && items[i] == x;
          assert Dump(stamp, v).value.items[i] == items[i];
        }
      }
    case Dict(entries) =>
      forall k | k in entries ensures Dump(stamp, entries[k]).Ok? ==> IsJson(Dump(stamp, entries[k]).value)
        ensures Dump(stamp, entries[k]) == Ok(entries[k]) <==> IsJson(entries[k]) {
        DumpIsJson(stamp, entries[k]);
      }
      if IsJson(v) {
        assert Dump(stamp, v).value.entries == entries;
      }
      if Dump(stamp, v) == Ok(v) {
        forall k | k in entries ensures IsJson(entries[k]) {
          assert Dump(stamp, v).value.entries[k] == entries[k];
        }
      }
    case _ =>
  }

  function DirectionText(d: Direction): string {
    if d == NEXT then "next" else "prev"
  }

  function SortText(s: SortDirection): string {
    if s == ASC then "asc" else "desc"
  }

  /** The JSON value `model_dump(mode="json")` makes of a payload. */
  function ModelDump(x: Externals, p: CursorPayload): Result<Value, CursorError> {
    var values :- Dump(x.stamp, Dict(EncodeValues(x.dates, p.values)));
    Ok(Dict(map[
      "version" := x.VersionValue(p.version),
      "values" := values,
      "direction" := Text(DirectionText(p.direction)),
      "sort" := Text(SortText(p.sort)),
      "expires_at" := x.ExpiryValue(p.expiresAt)]))
  }

  /** `model_validate`: unknown keys are refused, missing ones take their defaults, `values` is required. */
  function ModelValidate(x: Externals, j: Value): Result<CursorPayload, CursorError> {
    if !j.Dict? || !(j.entries.Keys <= {"version", "values", "direction", "sort", "expires_at"})
    then Err(InvalidPayload)
    else
      var version := if "version" in j.entries then x.readVersion(j.entries["version"]) else Some(1);
      var values := Get(j.entries, "values");
      var direction := if "direction" in j.entries then j.entries["direction"] else Text("next");
      var sort := if "sort" in j.entries then j.entries["sort"] else Text("desc");
      var expiresAt := if "expires_at" in j.entries then x.readExpiry(j.entries["expires_at"]) else Some(None);
      if version.None? || !values.Dict? || expiresAt.None? then Err(InvalidPayload)
      else if direction != Text("next") && direction != Text("prev") then Err(InvalidPayload)
      else if sort != Text("asc") && sort != Text("desc") then Err(InvalidPayload)
      else
        var vs :- DecodeValues(x.dates, values.entries);
        Ok(CursorPayload(version.value, vs, if direction == Text("next") then NEXT else PREV,
                         if sort == Text("asc") then ASC else DESC, expiresAt.value))
  }

  /** hmac.py, `_enrich_payload`. */
  function Enrich(cfg: HmacConfig, now: int, p: CursorPayload): CursorPayload {
    if p.expiresAt.None? && cfg.expiresInSeconds != 0
    then p.(expiresAt := Some(Aware(now + cfg.expiresInSeconds * MICROSECONDS)))
    else p
  }

  predicate ExpiredAt(p: CursorPayload, now: int) {
    p.expiresAt.Some? && p.expiresAt.value.Aware? && now > p.expiresAt.value.t
  }

  /** The expiry has no time zone, so it cannot be compared with the clock. */
  predicate Unzoned(p: CursorPayload) {
    p.expiresAt.Some? && p.expiresAt.value.Naive?
  }

  /** hmac.py, `_validate_expiry`. */
  function ValidateExpiry(p: CursorPayload, now: int): Result<CursorPayload, CursorError> {
    if Unzoned(p) then Err(NaiveExpiry) else if ExpiredAt(p, now) then Err(Expired) else Ok(p)
  }

  function Signature(x: Externals, cfg: HmacConfig, text: string): string {
    Base64.Encode(x.mac(cfg.secretKey, text))
  }

  /** hmac.py, `encode`. */
  function Encode(x: Externals, cfg: HmacConfig, now: int, p: CursorPayload): Result<string, CursorError> {
    var json :- ModelDump(x, Enrich(cfg, now, p));
    var text := Base64.Encode(x.dumps(json));
    Ok(text + "." + Signature(x, cfg, text))
  }

  /** The part of a text before its first dot; the whole text if it has none. */
  function BeforeDot(s: string): (r: string)
    ensures r <= s && '.' !in r
    ensures '.' in s ==> |r| < |s| && s[|r|] == '.'
  {
    if s == "" || s[0] == '.' then "" else
      var r := [s[0]] + BeforeDot(s[1..]);
      assert s == [s[0]] + s[1..];
      r
  }

  /** hmac.py, `decode`. `compare_digest` raises on a non-ASCII text. */
  function Decode(x: Externals, cfg: HmacConfig, now: int, cursor: string): Result<CursorPayload, CursorError> {
    if '.' !in cursor then Err(Malformed)
    else
      var text := BeforeDot(cursor);
      var signature := cursor[|text| + 1..];
      if !Base64.IsAscii(signature) then Err(NonAsciiSignature)
      else if signature != Signature(x, cfg, text) then Err(BadSignature)
      else
        var bytes := Base64.Decode(text);
        if bytes.Err? then Err(Undecodable)
        else
          var json := x.loads(bytes.value);
          if json.None? then Err(Undecodable)
          else
            var p :- ModelValidate(x, json.value);
            ValidateExpiry(p, now)
  }

  /** The first-dot split of a text p + "." + s with a dot-free p recovers both halves. */
  lemma {:induction false} FirstDotSplits(p: string, s: string)
    requires '.' !in p
    ensures BeforeDot(p + "." + s) == p
    ensures (p + "." + s)[|p| + 1..] == s
  {
    var c := p + "." + s;
    if p != "" {
      FirstDotSplits(p[1..], s);
      assert c[1..] == p[1..] + "." + s;
      assert p == [p[0]] + p[1..];
      assert p[0] in p;
    }
  }

  /** Validating a dump gives the payload back when its values are carriable. */
  lemma CarriableValidates(x: Externals, p: CursorPayload)
    requires x.Lawful() && Normal(p.values)
    requires forall k | k in p.values :: Carriable(p.values[k])
    ensures ModelDump(x, p).Ok? && ModelValidate(x, ModelDump(x, p).value) == Ok(p)
  {
    var encoded := EncodeValues(x.dates, p.values);
    EncodedIsJson(x.dates, p.values);
    DumpIsJson(x.stamp, Dict(encoded));
    TaggingRoundTrip(x.dates, p.values);
    var j := ModelDump(x, p).value;
    assert j.entries["version"] == x.VersionValue(p.version);
    assert j.entries["expires_at"] == x.ExpiryValue(p.expiresAt);
    assert j.entries["values"] == Dict(encoded);
    assert j.entries["direction"] == Text(DirectionText(p.direction));
    assert j.entries["sort"] == Text(SortText(p.sort));
  }

  lemma ModelDumpIsJson(x: Externals, p: CursorPayload)
    ensures ModelDump(x, p).Ok? ==> IsJson(ModelDump(x, p).value)
  {
    DumpIsJson(x.stamp, Dict(EncodeValues(x.dates, p.values)));
  }

  lemma EncodedIsJson(dates: DateText, values: map<string, Value>)
    ensures IsJson(Dict(EncodeValues(dates, values))) <==> forall k | k in values :: Carriable(values[k])
  {
    var encoded := EncodeValues(dates, values);
    forall k | k in values ensures IsJson(encoded[k]) <==> Carriable(values[k]) {
      if values[k].DateTime? {
        var e := encoded[k].entries;
        assert forall j | j in e :: e[j] == Text(dates.format(values[k].t));
      }
    }
  }

  lemma CarriedOver(x: Externals, values: map<string, Value>)
    requires Dump(x.stamp, Dict(EncodeValues(x.dates, values))).Ok?
    requires DecodeValues(x.dates, Dump(x.stamp, Dict(EncodeValues(x.dates, values))).value.entries) == Ok(values)
    ensures forall k | k in values :: Carriable(values[k])
  {
    var dumped := Dump(x.stamp, Dict(EncodeValues(x.dates, values))).value.entries;
    DumpIsJson(x.stamp, Dict(EncodeValues(x.dates, values)));
    forall k | k in values ensures Carriable(values[k]) {
      assert k in dumped;
      assert DecodeValue(x.dates, dumped[k]) == Ok(values[k]);
    }
  }

  lemma EnrichedRoundTrip(x: Externals, cfg: HmacConfig, now: int, later: int, p: CursorPayload)
    requires x.Lawful() && Normal(p.values)
    ensures && Encode(x, cfg, now, p).Ok?
            && Decode(x, cfg, later, Encode(x, cfg, now, p).value) == Ok(Enrich(cfg, now, p))
       <==> && (forall k | k in p.values :: Carriable(p.values[k]))
            && !Unzoned(Enrich(cfg, now, p)) && !ExpiredAt(Enrich(cfg, now, p), later)
  {
    var q := Enrich(cfg, now, p);
    assert q.values == p.values;
    if forall k | k in p.values :: Carriable(p.values[k]) {
      CarriableValidates(x, q);
    }
    if ModelDump(x, q).Ok? {
      EncodedDecodes(x, cfg, now, later, p);
      if ModelValidate(x, ModelDump(x, q).value) == Ok(q) {
        ValidatedIsCarriable(x, q);
      }
    }
  }

  /** Round trip: decoding the encoding of a constructed payload gives it back with only a missing expiry
      filled in, exactly when its values are carriable and the expiry has a time zone and has not passed. */
  lemma RoundTrip(x: Externals, cfg: HmacConfig, now: int, later: int, p: CursorPayload, expiry: Option<Expiry>)
    requires x.Lawful() && Normal(p.values)
    requires expiry == if p.expiresAt.Some? then p.expiresAt
                       else if cfg.expiresInSeconds == 0 then None
                       else Some(Aware(now + cfg.expiresInSeconds * 1_000_000))
    ensures && Encode(x, cfg, now, p).Ok?
            && Decode(x, cfg, later, Encode(x, cfg, now, p).value) == Ok(p.(expiresAt := expiry))
       <==> && (forall k | k in p.values :: Carriable(p.values[k]))
            && (expiry.None? || (expiry.value.Aware? && later <= expiry.value.t))
  {
    hide Encode, Decode;
    assert Enrich(cfg, now, p) == p.(expiresAt := expiry);
    EnrichedRoundTrip(x, cfg, now, later, p);
  }

  lemma ValidatedIsCarriable(x: Externals, p: CursorPayload)
    requires ModelDump(x, p).Ok? && ModelValidate(x, ModelDump(x, p).value) == Ok(p)
    ensures forall k | k in p.values :: Carriable(p.values[k])
  {
    var j := ModelDump(x, p).value;
    assert j.entries["values"] == Dump(x.stamp, Dict(EncodeValues(x.dates, p.values))).value;
    CarriedOver(x, p.values);
  }

  /** Decoding an encoded cursor reaches the JSON it was made of. */
  lemma EncodedDecodes(x: Externals, cfg: HmacConfig, now: int, later: int, p: CursorPayload)
    requires x.Lawful() && ModelDump(x, Enrich(cfg, now, p)).Ok?
    ensures Encode(x, cfg, now, p).Ok?
    ensures var back := ModelValidate(x, ModelDump(x, Enrich(cfg, now, p)).value);
            Decode(x, cfg, later, Encode(x, cfg, now, p).value)
              == if back.Ok? then ValidateExpiry(back.value, later) else back
  {
    ModelDumpIsJson(x, Enrich(cfg, now, p));
    var json := ModelDump(x, Enrich(cfg, now, p)).value;
    assert x.loads(x.dumps(json)) == Some(json);
    FramedDecodes(x, cfg, later, x.dumps(json), json);
  }

  /** The text of JSON bytes, signed and framed, decodes to what those bytes say. */
  lemma FramedDecodes(x: Externals, cfg: HmacConfig, later: int, bytes: seq<Base64.byte>, json: Value)
    requires x.loads(bytes) == Some(json)
    ensures var text := Base64.Encode(bytes);
            var back := ModelValidate(x, json);
            Decode(x, cfg, later, text + "." + Base64.Encode(x.mac(cfg.secretKey, text)))
              == if back.Ok? then ValidateExpiry(back.value, later) else back
  {
    var text := Base64.Encode(bytes);
    Base64.RoundTrip(bytes);
    Base64.EncodeShape(x.mac(cfg.secretKey, text));
    FirstDotSplits(text, Signature(x, cfg, text));
    assert (text + "." + Signature(x, cfg, text))[|text|] == '.';
  }

  /** A datetime inside a list comes back as text: the payload is not returned. */
  lemma NestedDatetimeIsLost(x: Externals, cfg: HmacConfig, now: int, later: int)
    requires x.Lawful()
    ensures var p := CursorPayload(1, map["k" := List([DateTime(0)])], NEXT, DESC, None);
            Encode(x, cfg, now, p).Ok? && Decode(x, cfg, later, Encode(x, cfg, now, p).value) != Ok(Enrich(cfg, now, p))
  {
    var p := CursorPayload(1, map["k" := List([DateTime(0)])], NEXT, DESC, None);
    var encoded := EncodeValues(x.dates, p.values);
    assert encoded == map["k" := List([DateTime(0)])];
    assert Dump(x.stamp, DateTime(0)).Ok?;
    assert Dump(x.stamp, encoded["k"]).Ok?;
    assert DateTime(0) in p.values["k"].items;
    assert !Carriable(p.values["k"]);
    EnrichedRoundTrip(x, cfg, now, later, p);
  }

  // ----- What `decode` accepts -----

  /** The JSON a text carries, if it is base64url of JSON. */
  function Carried(x: Externals, text: string): Option<Value> {
    var bytes := Base64.Decode(text);
    if bytes.Err? then None else x.loads(bytes.value)
  }

  /** The text carries a payload that can be answered now. */
  predicate CarriesPayload(x: Externals, now: int, text: string) {
    && Carried(x, text).Some?
    && var p := ModelValidate(x, Carried(x, text).value);
       p.Ok? && ValidateExpiry(p.value, now).Ok?
  }

  /** Accepted are exactly the texts of the form p + "." + signature(p), with no dot in p, whose p carries a
      payload that is not expired. */
  lemma DecodeAcceptsOnlySigned(x: Externals, cfg: HmacConfig, now: int, cursor: string)
    ensures Decode(x, cfg, now, cursor).Ok? <==>
            exists p ::
              '.' !in p && cursor == p + "." + Base64.Encode(x.mac(cfg.secretKey, p)) && CarriesPayload(x, now, p)
  {
    if '.' in cursor {
      var p := BeforeDot(cursor);
      var signature := cursor[|p| + 1..];
      assert cursor == p + "." + signature;
      Base64.EncodeShape(x.mac(cfg.secretKey, p));
      forall q | '.' !in q && cursor == q + "." + Base64.Encode(x.mac(cfg.secretKey, q)) ensures q == p {
        FirstDotSplits(q, Base64.Encode(x.mac(cfg.secretKey, q)));
      }
    } else {
      forall p ensures cursor != p + "." + Base64.Encode(x.mac(cfg.secretKey, p)) {
        assert (p + "." + Base64.Encode(x.mac(cfg.secretKey, p)))[|p|] == '.';
      }
    }
  }

  // ----- Which exceptions leave `decode` -----

  /** InvalidCursorError or ExpiredCursorError; any other error is an exception of a library that `decode`
      lets through. */
  predicate IsCursorException(e: CursorError) {
    e == Malformed || e == BadSignature || e == Undecodable || e == Expired
  }

  predicate FailsOtherwise(r: Result<CursorPayload, CursorError>) {
    r.Err? && !IsCursorException(r.error)
  }

  /** JSON that is not a payload, or a payload whose expiry has no time zone. */
  predicate Unanswerable(x: Externals, json: Value) {
    var p := ModelValidate(x, json);
    p.Err? || Unzoned(p.value)
  }

  /** The text carries such JSON. */
  predicate CarriesUnanswerable(x: Externals, text: string) {
    Carried(x, text).Some? && Unanswerable(x, Carried(x, text).value)
  }

  lemma OnlyInvalidPayload(x: Externals, j: Value)
    ensures ModelValidate(x, j).Err? ==> ModelValidate(x, j).error == InvalidPayload
  {
  }

  /** `decode` lets an exception through exactly for a cursor with a dot whose signature half is not ASCII, or
      is right for JSON that is not a payload or is one without a time zone in its expiry. */
  lemma OtherFailuresExactlyWhen(x: Externals, cfg: HmacConfig, now: int, text: string, signature: string)
    requires '.' !in text
    ensures FailsOtherwise(Decode(x, cfg, now, text + "." + signature))
       <==> || !Base64.IsAscii(signature)
            || (signature == Base64.Encode(x.mac(cfg.secretKey, text)) && CarriesUnanswerable(x, text))
  {
    var cursor := text + "." + signature;
    assert cursor[|text|] == '.';
    FirstDotSplits(text, signature);
    Base64.EncodeShape(x.mac(cfg.secretKey, text));
    if Carried(x, text).Some? {
      OnlyInvalidPayload(x, Carried(x, text).value);
    }
  }

  /** The same of any cursor text: without a dot the failure is always an invalid-cursor error. */
  lemma DecodeFailsOtherwise(x: Externals, cfg: HmacConfig, now: int, cursor: string)
    ensures FailsOtherwise(Decode(x, cfg, now, cursor)) <==>
            exists text, signature ::
              && '.' !in text && cursor == text + "." + signature
              && (|| !Base64.IsAscii(signature)
                  || (signature == Base64.Encode(x.mac(cfg.secretKey, text)) && CarriesUnanswerable(x, text)))
  {
    if '.' in cursor {
      var text := BeforeDot(cursor);
      var signature := cursor[|text| + 1..];
      assert cursor == text + "." + signature;
      OtherFailuresExactlyWhen(x, cfg, now, text, signature);
      forall text', signature' | '.' !in text' && cursor == text' + "." + signature'
        ensures text' == text && signature' == signature {
        FirstDotSplits(text', signature');
      }
    } else {
      forall text, signature ensures cursor != text + "." + signature {
        assert (text + "." + signature)[|text|] == '.';
      }
    }
  }

  /** Python's texts also hold lone surrogates, which have no UTF-8. */
  type CodePoint = c: int | 0 <= c < 0x11_0000

  predicate Surrogate(c: CodePoint) {
    0xD800 <= c < 0xE000
  }

  /** The characters of a text; U+FFFD stands for a surrogate where it only matters that it is not ASCII. */
  function Chars(text: seq<CodePoint>): string {
    seq(|text|, i requires 0 <= i < |text| => if Surrogate(text[i]) then 0xFFFD as char else text[i] as char)
  }

  /** hmac.py, `decode` of any Python text: a surrogate before the first dot cannot be encoded for signing. */
  function DecodeText(x: Externals, cfg: HmacConfig, now: int, cursor: seq<CodePoint>)
    : Result<CursorPayload, CursorError>
  {
    var chars := Chars(cursor);
    if '.' in chars && exists c | c in cursor[..|BeforeDot(chars)|] :: Surrogate(c) then Err(UnencodableText)
    else Decode(x, cfg, now, chars)
  }

  const DOT: CodePoint := 46

  lemma CharsJoin(text: seq<CodePoint>, signature: seq<CodePoint>)
    requires DOT !in text
    ensures Chars(text + [DOT] + signature) == Chars(text) + "." + Chars(signature)
    ensures '.' !in Chars(text)
    ensures Base64.IsAscii(Chars(signature)) <==> forall c | c in signature :: c < 128
  {
    forall i | 0 <= i < |text| ensures Chars(text)[i] != '.' {
      assert text[i] in text;
    }
    var cursor := text + [DOT] + signature;
    assert Chars(cursor) == Chars(text) + "." + Chars(signature);
    if Base64.IsAscii(Chars(signature)) {
      forall c | c in signature ensures c < 128 {
        var i :| 0 <= i < |signature| && signature[i] == c;
        assert Chars(signature)[i] as int < 128;
      }
    }
    if forall c | c in signature :: c < 128 {
      forall i | 0 <= i < |signature| ensures Chars(signature)[i] as int < 128 {
        assert signature[i] in signature;
      }
    }
  }

  /** The same of any Python text: a surrogate before the first dot is one more way to fail. */
  lemma DecodeTextFailsOtherwise(
    x: Externals, cfg: HmacConfig, now: int, text: seq<CodePoint>, signature: seq<CodePoint>)
    requires DOT !in text
    ensures FailsOtherwise(DecodeText(x, cfg, now, text + [DOT] + signature)) <==>
            || (exists c | c in text :: Surrogate(c))
            || (exists c | c in signature :: c >= 128)
            || (&& Chars(signature) == Base64.Encode(x.mac(cfg.secretKey, Chars(text)))
                && CarriesUnanswerable(x, Chars(text)))
  {
    var cursor := text + [DOT] + signature;
    CharsJoin(text, signature);
    FirstDotSplits(Chars(text), Chars(signature));
    assert Chars(cursor)[|text|] == '.';
    assert cursor[..|text|] == text;
    OtherFailuresExactlyWhen(x, cfg, now, Chars(text), Chars(signature));
  }

  /** A signature half that is not ASCII fails with the exception of `compare_digest`. */
  lemma NonAsciiCursorFails(x: Externals, cfg: HmacConfig, now: int)
    ensures Decode(x, cfg, now, ['a', '.', 233 as char]) == Err(NonAsciiSignature)
    ensures FailsOtherwise(Decode(x, cfg, now, ['a', '.', 233 as char]))
  {
    var cursor := ['a', '.', 233 as char];
    assert cursor == "a" + "." + [233 as char];
    FirstDotSplits("a", [233 as char]);
    assert cursor[2..][0] as int == 233;
  }

  /** Signed JSON that is not a payload fails with the exception of `model_validate`: here an empty mapping. */
  lemma SignedNonPayloadFails(x: Externals, cfg: HmacConfig, now: int)
    requires x.Lawful()
    ensures var text := Base64.Encode(x.dumps(Dict(map[])));
            Decode(x, cfg, now, text + "." + Base64.Encode(x.mac(cfg.secretKey, text))) == Err(InvalidPayload)
  {
    var json := Dict(map[]);
    assert IsJson(json) && Get(json.entries, "values") == Null;
    FramedDecodes(x, cfg, now, x.dumps(json), json);
  }

  /** Dumping keeps the keys of a mapping and makes a mapping of nothing else. */
  lemma DumpKeepsTags(stamp: int -> string, v: Value)
    requires Dump(stamp, v).Ok?
    ensures Tagged(Dump(stamp, v).value) <==> Tagged(v)
  {
    if v.Dict? {
      assert Dump(stamp, v).value.entries.Keys == v.entries.Keys;
    }
  }

  lemma TaggedDumpDecodes(x: Externals, t: int)
    requires x.Lawful()
    ensures var tagged := Dict(map[DATETIME_TAG := Text(x.dates.format(t))]);
            Dump(x.stamp, tagged) == Ok(tagged) && DecodeValue(x.dates, tagged) == Ok(DateTime(t))
  {
    var tagged := Dict(map[DATETIME_TAG := Text(x.dates.format(t))]);
    assert IsJson(tagged.entries[DATETIME_TAG]);
    DumpIsJson(x.stamp, tagged);
    assert x.dates.parse(x.dates.format(t)) == Some(t);
  }

  /** What a constructed payload is dumped to always validates, with the same expiry. */
  lemma DumpedValidates(x: Externals, p: CursorPayload)
    requires x.Lawful() && Normal(p.values) && ModelDump(x, p).Ok?
    ensures ModelValidate(x, ModelDump(x, p).value).Ok?
    ensures ModelValidate(x, ModelDump(x, p).value).value.expiresAt == p.expiresAt
  {
    var encoded := EncodeValues(x.dates, p.values);
    var dumped := Dump(x.stamp, Dict(encoded)).value;
    forall k | k in dumped.entries ensures DecodeValue(x.dates, dumped.entries[k]).Ok? {
      assert k in encoded && dumped.entries[k] == Dump(x.stamp, encoded[k]).value;
      if p.values[k].DateTime? {
        TaggedDumpDecodes(x, p.values[k].t);
      } else {
        DumpKeepsTags(x.stamp, encoded[k]);
      }
    }
    var j := ModelDump(x, p).value;
    assert j.entries["version"] == x.VersionValue(p.version);
    assert j.entries["expires_at"] == x.ExpiryValue(p.expiresAt);
    assert j.entries["values"] == dumped;
    assert j.entries["direction"] == Text(DirectionText(p.direction));
    assert j.entries["sort"] == Text(SortText(p.sort));
  }

  /** What becomes of a cursor this encoder made, whatever values it carries: without a time zone in the
      expiry its decoding fails with the exception of comparing it with the clock; otherwise it decodes
      until the expiry has passed and fails with ExpiredCursorError from then on. So it fails otherwise
      exactly if the payload was constructed with an expiry that has no time zone. */
  lemma EncodedFailsOtherwise(x: Externals, cfg: HmacConfig, now: int, later: int, p: CursorPayload)
    requires x.Lawful() && Normal(p.values) && Encode(x, cfg, now, p).Ok?
    ensures var r := Decode(x, cfg, later, Encode(x, cfg, now, p).value);
            && (FailsOtherwise(r) <==> Unzoned(p))
            && (Unzoned(p) ==> r == Err(NaiveExpiry))
            && (!Unzoned(p) ==> if ExpiredAt(Enrich(cfg, now, p), later) then r == Err(Expired) else r.Ok?)
  {
    DumpedValidates(x, Enrich(cfg, now, p));
    EncodedDecodes(x, cfg, now, later, p);
  }

  /** A payload constructed with an expiry without a time zone is encoded, and its cursor never decodes. */
  lemma NaiveExpiryFails(x: Externals, cfg: HmacConfig, now: int, later: int)
    requires x.Lawful()
    ensures var p := CursorPayload(1, map[], NEXT, DESC, Some(Naive(0)));
            Encode(x, cfg, now, p).Ok? && Decode(x, cfg, later, Encode(x, cfg, now, p).value) == Err(NaiveExpiry)
  {
    var p := CursorPayload(1, map[], NEXT, DESC, Some(Naive(0)));
    assert Dump(x.stamp, Dict(EncodeValues(x.dates, p.values))).Ok?;
    EncodedFailsOtherwise(x, cfg, now, later, p);
  }
}
