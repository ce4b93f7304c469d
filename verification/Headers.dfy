/** Headers from the SQS producer to the consumer's carrier. */
module Headers {
  import opened Wrappers

  /** A header value: `None`, a scalar with its string form, or anything else. */
  datatype HeaderValue = Nothing | Scalar(text: string) | Structured

  const MAX_ATTRIBUTES := 10

  ghost predicate DistinctNames(headers: seq<(string, HeaderValue)>) {
    forall i, j | 0 <= i < j < |headers| :: headers[i].0 != headers[j].0
  }

  /** The scalar entries, in order, with their string form. */
  function Scalars(headers: seq<(string, HeaderValue)>): seq<(string, string)> {
    if headers == [] then []
    else
      var n := |headers| - 1;
      Scalars(headers[..n]) + if headers[n].1.Scalar? then [(headers[n].0, headers[n].1.text)] else []
  }

  function Sent(headers: seq<(string, HeaderValue)>): seq<(string, string)> {
    var scalars := Scalars(headers);
    scalars[..Min(MAX_ATTRIBUTES, |scalars|)]
  }

  lemma {:induction false} ScalarsGrow(headers: seq<(string, HeaderValue)>, n: nat)
    requires n <= |headers|
    ensures Scalars(headers[..n]) <= Scalars(headers)
    decreases |headers|
  {
    if n == |headers| {
      assert headers[..n] == headers;
    } else {
      ScalarsGrow(headers[..|headers| - 1], n);
      assert headers[..|headers| - 1][..n] == headers[..n];
    }
  }

  /** producer/sqs.py, `build_sqs_message_attributes`: exactly the first ten scalar entries. */
  method BuildAttributes(headers: seq<(string, HeaderValue)>) returns (attributes: seq<(string, string)>)
    ensures attributes == Sent(headers)
  {
    attributes := [];
    for i := 0 to |headers|
      invariant attributes == Scalars(headers[..i]) && |attributes| < MAX_ATTRIBUTES
    {
      assert headers[..i + 1][..i] == headers[..i];
      if headers[i].1.Scalar? {
        attributes := attributes + [(headers[i].0, headers[i].1.text)];
        if |attributes| >= MAX_ATTRIBUTES {
          ScalarsGrow(headers, i + 1);
          return;
        }
      }
    }
    assert headers[..|headers|] == headers;
  }

  /** A delivery attribute in the consumer's metadata: a system attribute's text, a message attribute
      with the keys it may carry, or anything else. */
  datatype Meta =
    | System(text: string)
    | Attribute(stringValue: Option<string>, lowerStringValue: Option<string>, value: Option<string>)
    | Other

  /** `a or b`, on texts that may be missing. */
  function Or(a: Option<string>, b: Option<string>): Option<string> {
    if a.Some? && a.value != "" then a else b
  }

  function CarrierText(m: Meta): Option<string> {
    match m
    case System(text) => Some(text)
    case Attribute(a, b, c) => Or(Or(a, b), c)
    case Other => None
  }

  /** consumer/sqs.py, `carrier`. */
  method Carrier(metadata: map<string, Meta>) returns (flat: map<string, string>)
    ensures forall k :: k in flat <==> k in metadata && CarrierText(metadata[k]).Some?
    ensures forall k | k in flat :: Some(flat[k]) == CarrierText(metadata[k])
  {
    flat := map[];
    var rest := metadata.Keys;
    while rest != {}
      invariant rest <= metadata.Keys
      invariant forall k :: k in flat <==> k in metadata && k !in rest && CarrierText(metadata[k]).Some?
      invariant forall k | k in flat :: Some(flat[k]) == CarrierText(metadata[k])
      decreases rest
    {
      var key :| key in rest;
      match metadata[key] {
        case System(text) => flat := flat[key := text];
        case Attribute(a, b, c) =>
          var text := Or(Or(a, b), c);
          if text.Some? {
            flat := flat[key := text.value];
          }
        case Other =>
      }
      rest := rest - {key};
    }
  }

  /** The message attributes as the broker hands them over. */
  function Delivered(attributes: seq<(string, string)>): map<string, Meta> {
    if attributes == [] then map[]
    else
      var n := |attributes| - 1;
      Delivered(attributes[..n])[attributes[n].0 := Attribute(Some(attributes[n].1), None, None)]
  }

  lemma {:induction false} DeliveredKeys(attributes: seq<(string, string)>)
    requires NamesApart(attributes)
    ensures forall i | 0 <= i < |attributes| ::
              attributes[i].0 in Delivered(attributes)
              && Delivered(attributes)[attributes[i].0] == Attribute(Some(attributes[i].1), None, None)
    ensures forall k | k in Delivered(attributes) :: exists i | 0 <= i < |attributes| :: attributes[i].0 == k
    decreases |attributes|
  {
    if attributes != [] {
      var n := |attributes| - 1;
      DeliveredKeys(attributes[..n]);
      forall i | 0 <= i < n
        ensures attributes[i].0 in Delivered(attributes[..n])
        ensures Delivered(attributes[..n])[attributes[i].0] == Attribute(Some(attributes[i].1), None, None)
      {
        assert attributes[..n][i] == attributes[i];
      }
      forall k | k in Delivered(attributes) ensures exists i | 0 <= i < |attributes| :: attributes[i].0 == k {
        if k == attributes[n].0 {
        } else {
          var i :| 0 <= i < |attributes[..n]| && attributes[..n][i].0 == k;
          assert attributes[i].0 == k;
        }
      }
    }
  }

  lemma {:induction false} ScalarsDistinct(headers: seq<(string, HeaderValue)>)
    requires DistinctNames(headers)
    ensures NamesApart(Scalars(headers))
    ensures forall e | e in Scalars(headers) :: exists i | 0 <= i < |headers| :: headers[i] == (e.0, Scalar(e.1))
    decreases |headers|
  {
    if headers != [] {
      var n := |headers| - 1;
      ScalarsDistinct(headers[..n]);
      var before := Scalars(headers[..n]);
      forall e | e in before ensures exists i | 0 <= i < n :: headers[i] == (e.0, Scalar(e.1)) {
        var i :| 0 <= i < |headers[..n]| && headers[..n][i] == (e.0, Scalar(e.1));
        assert headers[i] == (e.0, Scalar(e.1));
      }
      forall i | 0 <= i < |before| ensures before[i].0 != headers[n].0 {
        assert before[i] in before;
      }
      var after := Scalars(headers);
      forall i, j | 0 <= i < j < |after| ensures after[i].0 != after[j].0 {
        assert after[i] == before[i];
        if j < |before| { assert after[j] == before[j]; }
      }
    }
  }

  function Metadata(system: map<string, string>, attributes: seq<(string, string)>): map<string, Meta> {
    (map k | k in system :: System(system[k])) + Delivered(attributes)
  }

  /** Each of the first ten scalar headers arrives in the carrier as its text if that is not empty, and
      is missing otherwise, whatever the system attributes; a name not sent holds the system's text. */
  lemma HeadersArrive(headers: seq<(string, HeaderValue)>, system: map<string, string>, name: string)
    requires DistinctNames(headers)
    ensures var metadata := Metadata(system, Sent(headers));
            && (forall i | 0 <= i < |Sent(headers)| && Sent(headers)[i].0 == name ::
                  && name in metadata
                  && CarrierText(metadata[name]) == if Sent(headers)[i].1 == "" then None else Some(Sent(headers)[i].1))
            && ((forall i | 0 <= i < |Sent(headers)| :: Sent(headers)[i].0 != name) ==>
                  && (name in metadata <==> name in system)
                  && (name in system ==> CarrierText(metadata[name]) == Some(system[name])))
  {
    ScalarsDistinct(headers);
    var sent := Sent(headers);
    assert forall i | 0 <= i < |sent| :: sent[i] == Scalars(headers)[i];
    DeliveredKeys(sent);
  }

  /** Which text of an attribute the carrier takes: the first of `StringValue` and `stringValue` that is not
      empty, else `Value`, even if that is empty. */
  lemma CarrierPrefers(a: Option<string>, b: Option<string>, c: Option<string>)
    ensures CarrierText(Attribute(a, b, c)) ==
            if a.Some? && a.value != "" then a else if b.Some? && b.value != "" then b else c
  {
  }

  // ----- Which headers are sent -----

  /** The positions of the scalar headers before the `i`-th. */
  function ScalarsBefore(headers: seq<(string, HeaderValue)>, i: nat): set<nat>
    requires i <= |headers|
  {
    set j: nat | j < i && headers[j].1.Scalar?
  }

  lemma {:induction false} ScalarAt(headers: seq<(string, HeaderValue)>, i: nat)
    requires i < |headers| && headers[i].1.Scalar?
    ensures var k := |ScalarsBefore(headers, i)|;
            k < |Scalars(headers)| && Scalars(headers)[k] == (headers[i].0, headers[i].1.text)
  {
    ScalarCount(headers, i);
    ScalarsGrow(headers, i + 1);
    assert headers[..i + 1][..i] == headers[..i];
    assert Scalars(headers[..i + 1]) == Scalars(headers[..i]) + [(headers[i].0, headers[i].1.text)];
    assert Scalars(headers)[|Scalars(headers[..i])|] == Scalars(headers[..i + 1])[|Scalars(headers[..i])|];
  }

  lemma {:induction false} ScalarCount(headers: seq<(string, HeaderValue)>, i: nat)
    requires i <= |headers|
    ensures |Scalars(headers[..i])| == |ScalarsBefore(headers, i)|
  {
    if i == 0 {
      assert ScalarsBefore(headers, 0) == {};
    } else {
      ScalarCount(headers, i - 1);
      assert headers[..i][..i - 1] == headers[..i - 1];
      assert ScalarsBefore(headers, i) ==
             ScalarsBefore(headers, i - 1) + (if headers[i - 1].1.Scalar? then {i - 1} else {});
    }
  }

  /** A header is sent, with its string form, exactly if it is scalar and fewer than ten scalar ones precede it;
      at most ten are sent. */
  lemma SentExactlyWhen(headers: seq<(string, HeaderValue)>, i: nat)
    requires DistinctNames(headers) && i < |headers|
    ensures |Sent(headers)| <= 10
    ensures (exists k | 0 <= k < |Sent(headers)| :: Sent(headers)[k].0 == headers[i].0) <==>
            headers[i].1.Scalar? && |ScalarsBefore(headers, i)| < 10
    ensures headers[i].1.Scalar? && |ScalarsBefore(headers, i)| < 10 ==>
              var k := |ScalarsBefore(headers, i)|;
              k < |Sent(headers)| && Sent(headers)[k] == (headers[i].0, headers[i].1.text)
  {
    ScalarsDistinct(headers);
    if headers[i].1.Scalar? {
      ScalarAt(headers, i);
    }
    if k :| 0 <= k < |Sent(headers)| && Sent(headers)[k].0 == headers[i].0 {
      assert Scalars(headers)[k] in Scalars(headers);
      var j :| 0 <= j < |headers| && headers[j] == (Scalars(headers)[k].0, Scalar(Scalars(headers)[k].1));
      assert j == i;
    }
  }
}
