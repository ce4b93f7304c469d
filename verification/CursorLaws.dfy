/** What signatures, expiries and fields of a cursor decide. */
module CursorLaws {
  import opened Wrappers
  import opened Values
  import opened Keys
  import opened Payloads
  import opened HmacCursors
  import Base64 = Base64Url

  /** A signature made for another text, or under another key, is refused whenever its digest differs. */
  lemma ForeignSignatureRefused(x: Externals, cfg: HmacConfig, now: int, p: string, key: string, q: string)
    requires '.' !in p && x.mac(cfg.secretKey, p) != x.mac(key, q)
    ensures Decode(x, cfg, now, p + "." + Base64.Encode(x.mac(key, q))) == Err(BadSignature)
  {
    var signature := Base64.Encode(x.mac(key, q));
    FirstDotSplits(p, signature);
    assert (p + "." + signature)[|p|] == '.';
    Base64.EncodeShape(x.mac(key, q));
    Base64.RoundTrip(x.mac(key, q));
    Base64.RoundTrip(x.mac(cfg.secretKey, p));
  }

  /** ExpiredCursorError answers exactly a signed payload whose expiry lies before the clock. */
  lemma DecodeExpiredExactlyWhen(x: Externals, cfg: HmacConfig, now: int, p: string, signature: string)
    requires '.' !in p
    ensures Decode(x, cfg, now, p + "." + signature) == Err(Expired) <==>
            && signature == Base64.Encode(x.mac(cfg.secretKey, p)) && Carried(x, p).Some?
            && var payload := ModelValidate(x, Carried(x, p).value);
               payload.Ok? && payload.value.expiresAt.Some?
               && payload.value.expiresAt.value.Aware? && payload.value.expiresAt.value.t < now
  {
    FirstDotSplits(p, signature);
    assert (p + "." + signature)[|p|] == '.';
    Base64.EncodeShape(x.mac(cfg.secretKey, p));
    if Carried(x, p).Some? {
      OnlyInvalidPayload(x, Carried(x, p).value);
    }
  }

  // ----- What can be encoded -----

  lemma {:induction false} DumpsExactlyWhen(stamp: int -> string, v: Value)
    ensures Dump(stamp, v).Ok? <==> !HoldsObjectId(v)
  {
    match v
    case List(items) =>
      forall x | x in items ensures Dump(stamp, x).Ok? <==> !HoldsObjectId(x) {
        DumpsExactlyWhen(stamp, x);
      }
    case Dict(entries) =>
      forall k | k in entries ensures Dump(stamp, entries[k]).Ok? <==> !HoldsObjectId(entries[k]) {
        DumpsExactlyWhen(stamp, entries[k]);
      }
    case _ =>
  }

  /** A payload can be encoded exactly if no value holds an ObjectId. */
  lemma EncodesExactlyWhen(x: Externals, cfg: HmacConfig, now: int, p: CursorPayload)
    ensures Encode(x, cfg, now, p).Ok? <==> forall k | k in p.values :: !HoldsObjectId(p.values[k])
  {
    var encoded := EncodeValues(x.dates, p.values);
    DumpsExactlyWhen(x.stamp, Dict(encoded));
    forall k | k in p.values ensures HoldsObjectId(encoded[k]) <==> HoldsObjectId(p.values[k]) {
      if p.values[k].DateTime? {
        var e := encoded[k].entries;
        assert forall j | j in e :: e[j] == Text(x.dates.format(p.values[k].t));
      }
    }
  }

  // ----- What a payload's JSON must look like -----

  /** Fields that are missing take their defaults. */
  lemma MissingFieldsTakeDefaults(x: Externals, values: map<string, Value>)
    ensures ModelValidate(x, Dict(map["values" := Dict(values)])) ==
            match DecodeValues(x.dates, values)
            case Ok(decoded) => Ok(CursorPayload(1, decoded, NEXT, DESC, None))
            case Err(e) => Err(e)
  {
    var j := Dict(map["values" := Dict(values)]);
    assert Get(j.entries, "values") == Dict(values);
  }

  /** JSON is refused exactly if it is no mapping, has a foreign key, or has a field that does not read:
      `values` no mapping or with a tag that is no date, a direction or sort other than the two, a version or
      an expiry that pydantic does not read. */
  lemma RefusedExactlyWhen(x: Externals, j: Value)
    ensures ModelValidate(x, j).Err? <==>
            || !j.Dict?
            || (exists k :: k in j.entries && k !in {"version", "values", "direction", "sort", "expires_at"})
            || "values" !in j.entries || !j.entries["values"].Dict?
            || DecodeValues(x.dates, j.entries["values"].entries).Err?
            || ("direction" in j.entries && j.entries["direction"] !in {Text("next"), Text("prev")})
            || ("sort" in j.entries && j.entries["sort"] !in {Text("asc"), Text("desc")})
            || ("version" in j.entries && x.readVersion(j.entries["version"]).None?)
            || ("expires_at" in j.entries && x.readExpiry(j.entries["expires_at"]).None?)
  {
    if j.Dict? {
      if k :| k in j.entries && k !in {"version", "values", "direction", "sort", "expires_at"} {
        assert k in j.entries.Keys;
      }
    }
  }

  // ----- Texts that are no cursors -----

  /** Without a dot the cursor is invalid. */
  lemma NoDotIsInvalid(x: Externals, cfg: HmacConfig, now: int, cursor: string)
    requires '.' !in cursor
    ensures Decode(x, cfg, now, cursor) == Err(Malformed)
  {
  }

  /** A signed text that is not base64url of JSON is invalid, such as one that is not ASCII. */
  lemma SignedNonJsonIsInvalid(x: Externals, cfg: HmacConfig, now: int, p: string)
    requires '.' !in p
    ensures Carried(x, p).None? ==>
              Decode(x, cfg, now, p + "." + Base64.Encode(x.mac(cfg.secretKey, p))) == Err(Undecodable)
    ensures (exists c | c in p :: c as int >= 128) ==> Carried(x, p).None?
  {
    var signature := Base64.Encode(x.mac(cfg.secretKey, p));
    FirstDotSplits(p, signature);
    assert (p + "." + signature)[|p|] == '.';
    Base64.EncodeShape(x.mac(cfg.secretKey, p));
    if c :| c in p && c as int >= 128 {
      var i :| 0 <= i < |p| && p[i] == c;
      Base64.NotAsciiRefused(p, i);
    }
  }
}
