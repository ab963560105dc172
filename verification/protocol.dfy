/** The wire side of the framing layer: the record each frame is sent as,
    and the classification of a received record.

    The wire text itself is not modelled. A frame travels as the object
    `JSON.stringify` serialises, and `JSON.parse` yields either that object
    or a failure, so a `Record` (a key/value map) stands for both the
    text that is sent and the object that is received. */
module Protocol {
  import opened JsText
  import opened Types

  /** A JSON value, kept only as precisely as the classifier looks at it:
      numbers, strings, and everything else (null, booleans, arrays and
      nested objects). */
  datatype JsonValue = Num(n: real) | Str(s: JsString) | Other

  /** A JSON object: its own keys and their values. */
  type Record = map<string, JsonValue>

  /** What `JSON.parse(raw)` produces: it throws on malformed text, it may
      denote something other than an object, or it denotes an object. */
  datatype Wire = DecodeFailed | NonObject | Object(fields: Record)

  datatype Option<T> = None | Some(value: T)

  /** What `parseFrame` returns when it does not return null: the decoded
      object itself, under the frame type it is cast to. */
  datatype Parsed = AsStart(obj: Record) | AsEnd(obj: Record) | AsData(obj: Record)

  /** `"START"` and `"END"` as code units. */
  const StartTag: JsString := [0x53, 0x54, 0x41, 0x52, 0x54]
  const EndTag: JsString := [0x45, 0x4E, 0x44]

  /** The string each payload kind is written as. */
  function DataTypeName(t: DataType): JsString
  {
    match t
    case Text => [0x74, 0x65, 0x78, 0x74]                // "text"
    case Binary => [0x62, 0x69, 0x6E, 0x61, 0x72, 0x79]  // "binary"
    case Json => [0x6A, 0x73, 0x6F, 0x6E]                // "json"
  }

  /** The string each checksum algorithm is written as. */
  function AlgoName(a: ChecksumAlgo): JsString
  {
    match a
    case Crc32 => [0x63, 0x72, 0x63, 0x33, 0x32]         // "crc32"
    case Sha256 => [0x73, 0x68, 0x61, 0x32, 0x35, 0x36]  // "sha256"
  }

  /** `obj.key`: the value, or `None` where JavaScript reads `undefined`. */
  function Get(obj: Record, key: string): Option<JsonValue>
  {
    if key in obj then Some(obj[key]) else None
  }

  // ---------------------------------------------------------------------
  // Building frames

  /** `createStartFrame(...)`: the record `isStartFrame` recognises, with
      exactly the fields of a START frame. */
  function CreateStartFrame(dataType: DataType, totalFrames: nat, checksum: JsString, checksumAlgo: ChecksumAlgo): (r: Record)
    ensures r.Keys == {"type", "dataType", "totalFrames", "checksum", "checksumAlgo"}
    ensures IsStartFrame(r) && !IsEndFrame(r) && !IsDataFrame(r)
  {
    map["type" := Str(StartTag), "dataType" := Str(DataTypeName(dataType)),
        "totalFrames" := Num(totalFrames as real), "checksum" := Str(checksum),
        "checksumAlgo" := Str(AlgoName(checksumAlgo))]
  }

  /** `createDataFrame(index, payload)`: an untagged record `isDataFrame`
      recognises, with exactly the fields of a DATA frame. */
  function CreateDataFrame(index: nat, payload: JsString): (r: Record)
    ensures r.Keys == {"index", "payload"}
    ensures IsDataFrame(r) && !IsStartFrame(r) && !IsEndFrame(r)
  {
    map["index" := Num(index as real), "payload" := Str(payload)]
  }

  /** `createEndFrame(checksum, totalFrames)`: the record `isEndFrame`
      recognises, with exactly the fields of an END frame. */
  function CreateEndFrame(checksum: JsString, totalFrames: nat): (r: Record)
    ensures r.Keys == {"type", "checksum", "totalFrames"}
    ensures IsEndFrame(r) && !IsStartFrame(r) && !IsDataFrame(r)
  {
    map["type" := Str(EndTag), "checksum" := Str(checksum), "totalFrames" := Num(totalFrames as real)]
  }

  /** The record a typed frame is serialised as: exactly the frame's own
      fields, with the tag on START and END only. */
  function Encode(f: Frame): (r: Record)
    ensures "type" in r <==> !f.Data?
    ensures ParseFrame(Object(r)).Some?
  {
    match f
    case Start(dataType, totalFrames, checksum, checksumAlgo) =>
      CreateStartFrame(dataType, totalFrames, checksum, checksumAlgo)
    case Data(index, payload) => CreateDataFrame(index, payload)
    case End(checksum, totalFrames) => CreateEndFrame(checksum, totalFrames)
  }

  /** Serialisation loses nothing: distinct frames give distinct records. */
  lemma EncodeInjective(f: Frame, g: Frame)
    requires Encode(f) == Encode(g)
    ensures f == g
  {
    var r := Encode(f);
    match f
    case Start(_, _, _, _) =>
      assert r["type"] == Str(StartTag);
      assert g.Start?;
      assert r["dataType"] == Str(DataTypeName(f.dataType)) == Str(DataTypeName(g.dataType));
      assert r["checksumAlgo"] == Str(AlgoName(f.checksumAlgo)) == Str(AlgoName(g.checksumAlgo));
      assert r["totalFrames"] == Num(f.totalFrames as real) == Num(g.totalFrames as real);
      assert r["checksum"] == Str(f.checksum) == Str(g.checksum);
    case Data(_, _) =>
      assert "type" !in r;
      assert g.Data?;
      assert r["index"] == Num(f.index as real) == Num(g.index as real);
      assert r["payload"] == Str(f.payload) == Str(g.payload);
    case End(_, _) =>
      assert r["type"] == Str(EndTag);
      assert g.End?;
      assert r["totalFrames"] == Num(f.totalFrames as real) == Num(g.totalFrames as real);
      assert r["checksum"] == Str(f.checksum) == Str(g.checksum);
  }

  // ---------------------------------------------------------------------
  // Classifying frames

  /** `parseFrame(raw)`. A decoding failure, or a decoded value that is not
      an object, gives null. Otherwise the checks run in order: a `type` of
      `"START"` makes it START and a `type` of `"END"` makes it END, with no
      other field looked at; failing both, a numeric `index` and a string
      `payload` make it DATA, whatever else `type` holds; failing that, null.
      The object is returned as decoded. */
  function ParseFrame(raw: Wire): (r: Option<Parsed>)
    ensures r.Some? ==> raw.Object? && r.value.obj == raw.fields
    ensures (r.Some? && r.value.AsStart?) <==> raw.Object? && "type" in raw.fields && raw.fields["type"] == Str(StartTag)
    ensures (r.Some? && r.value.AsEnd?) <==>
              raw.Object? && "type" in raw.fields && raw.fields["type"] == Str(EndTag)
    ensures (r.Some? && r.value.AsData?) <==>
              && raw.Object?
              && !("type" in raw.fields && raw.fields["type"] in {Str(StartTag), Str(EndTag)})
              && "index" in raw.fields && raw.fields["index"].Num?
              && "payload" in raw.fields && raw.fields["payload"].Str?
  {
    match raw
    case Object(obj) =>
      if Get(obj, "type") == Some(Str(StartTag)) then Some(AsStart(obj))
      else if Get(obj, "type") == Some(Str(EndTag)) then Some(AsEnd(obj))
      else if Get(obj, "index").Some? && Get(obj, "index").value.Num?
              && Get(obj, "payload").Some? && Get(obj, "payload").value.Str? then Some(AsData(obj))
      else None
    case _ => None
  }

  /** `isStartFrame(frame)`: a `type` key holding `"START"`, which is
      exactly when `parseFrame` takes the object for a START frame. */
  predicate IsStartFrame(frame: Record)
    ensures IsStartFrame(frame) <==> ParseFrame(Object(frame)) == Some(AsStart(frame))
  {
    "type" in frame && frame["type"] == Str(StartTag)
  }

  /** `isEndFrame(frame)`: a `type` key holding `"END"`; never also START. */
  predicate IsEndFrame(frame: Record)
    ensures IsEndFrame(frame) ==> !IsStartFrame(frame)
  {
    "type" in frame && frame["type"] == Str(EndTag)
  }

  /** `isDataFrame(frame)`: no `type` key, and both `index` and `payload`
      keys, of any value; never also START or END. */
  predicate IsDataFrame(frame: Record)
    ensures IsDataFrame(frame) ==> !IsStartFrame(frame) && !IsEndFrame(frame)
  {
    "type" !in frame && "index" in frame && "payload" in frame
  }

  /** On the record of a typed frame, each predicate recognises exactly
      its own kind. */
  lemma PredicatesClassifyEncoded(f: Frame)
    ensures IsStartFrame(Encode(f)) <==> f.Start?
    ensures IsEndFrame(Encode(f)) <==> f.End?
    ensures IsDataFrame(Encode(f)) <==> f.Data?
  {
  }

  /** Every record the encoder builds parses back to its own kind, as the
      very object that was sent, so a DATA frame keeps its index and
      payload. */
  lemma ParseEncoded(f: Frame)
    ensures f.Start? ==> ParseFrame(Object(Encode(f))) == Some(AsStart(Encode(f)))
    ensures f.End? ==> ParseFrame(Object(Encode(f))) == Some(AsEnd(Encode(f)))
    ensures f.Data? ==> ParseFrame(Object(Encode(f))) == Some(AsData(Encode(f)))
    ensures f.Data? ==> Encode(f)["index"] == Num(f.index as real) && Encode(f)["payload"] == Str(f.payload)
  {
  }

  /** The parser and the predicates agree on START and END in both
      directions. On DATA they agree only when the object has no `type` key:
      the parser also accepts an object whose `type` is some other value. */
  lemma ParseAgreesWithPredicates(obj: Record)
    ensures ParseFrame(Object(obj)) == Some(AsStart(obj)) <==> IsStartFrame(obj)
    ensures ParseFrame(Object(obj)) == Some(AsEnd(obj)) <==> IsEndFrame(obj)
    ensures ParseFrame(Object(obj)) == Some(AsData(obj)) && "type" !in obj ==> IsDataFrame(obj)
    ensures IsDataFrame(obj) && obj["index"].Num? && obj["payload"].Str? ==>
              ParseFrame(Object(obj)) == Some(AsData(obj))
  {
  }

  /** `{type: "X", index: 0, payload: ""}` parses as DATA, yet
      `isDataFrame` rejects it. */
  lemma UntaggedDataMismatch()
    ensures var obj: Record := map["type" := Str([0x58]), "index" := Num(0.0), "payload" := Str([])];
            ParseFrame(Object(obj)) == Some(AsData(obj)) && !IsDataFrame(obj)
  {
  }
}
