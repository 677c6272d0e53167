/**
 The hand-written protobuf walkers that vet a message before it is decoded, and
 the encoder whose output they must accept ("Length-Delimited Records").
 */
module Message {
  import opened Prelude
  import opened Wire
  import opened Varint

  datatype MessageError = MalformedProtobuf | UnsupportedWireType

  const VARINT := 0
  const FIXED64 := 1
  const LENGTH_DELIMITED := 2
  const FIXED32 := 5

  // A known field number and the wire type it must use.
  type Schema = seq<(nat, nat)>

  /** The wire type the schema's first entry for `field` demands, if it has one. */
  function ExpectedWireType(schema: Schema, field: nat): (expected: Option<nat>)
  {
    if schema == [] then None
    else if schema[0].0 == field then Some(schema[0].1)
    else ExpectedWireType(schema[1..], field)
  }

  /** `skip_value`: how many bytes the value of a field takes. */
  function ValueLength(encoded: seq<byte>, wireType: nat): (r: Result<nat, MessageError>)
    ensures r.Ok? ==> r.value <= |encoded|
  {
    if wireType == VARINT then
      match ReadVarint(encoded)
      case None => Err(MalformedProtobuf)
      case Some((_, count)) => Ok(count)
    else if wireType == FIXED64 then
      if |encoded| < 8 then Err(MalformedProtobuf) else Ok(8)
    else if wireType == LENGTH_DELIMITED then
      match ReadVarint(encoded)
      case None => Err(MalformedProtobuf)
      case Some((length, count)) =>
        if length > |encoded| - count then Err(MalformedProtobuf) else Ok(count + length)
    else if wireType == FIXED32 then
      if |encoded| < 4 then Err(MalformedProtobuf) else Ok(4)
    else Err(UnsupportedWireType)
  }

  /** One record of a message: its field number, wire type, and where its value and the next record start. */
  datatype Record = Record(field: nat, wireType: nat, valueStart: nat, next: nat)

  /** The record at the head of a non-empty message, checked against the schema. */
  function HeadRecord(encoded: seq<byte>, schema: Schema): (r: Result<Record, MessageError>)
    requires encoded != []
    ensures r.Ok? ==> 0 < r.value.valueStart <= r.value.next <= |encoded|
  {
    match ReadVarint(encoded)
    case None => Err(MalformedProtobuf)
    case Some((key, count)) =>
      var expected := ExpectedWireType(schema, key / 8);
      if expected.Some? && expected.value != key % 8 then Err(UnsupportedWireType)
      else
        match ValueLength(encoded[count..], key % 8)
        case Err(error) => Err(error)
        case Ok(length) => Ok(Record(key / 8, key % 8, count, count + length))
  }

  /** Whether the whole message is a run of records that respect the schema, or the first complaint. */
  function Validated(encoded: seq<byte>, schema: Schema): Result<(), MessageError> {
    if encoded == [] then Ok(())
    else
      match HeadRecord(encoded, schema)
      case Err(error) => Err(error)
      case Ok(record) => Validated(encoded[record.next..], schema)
  }

  /** The length-delimited fields of a message with their contents, in order. */
  function Fields(encoded: seq<byte>): Result<seq<(nat, seq<byte>)>, MessageError> {
    if encoded == [] then Ok([])
    else
      match HeadRecord(encoded, [])
      case Err(error) => Err(error)
      case Ok(record) =>
        match Fields(encoded[record.next..])
        case Err(error) => Err(error)
        case Ok(rest) =>
          if record.wireType != LENGTH_DELIMITED then Ok(rest)
          else Ok([(record.field, encoded[ContentStart(encoded, record)..record.next])] + rest)
  }

  /** Where the contents of a length-delimited head record begin. */
  function ContentStart(encoded: seq<byte>, record: Record): (start: nat)
    requires encoded != [] && HeadRecord(encoded, []) == Ok(record) && record.wireType == LENGTH_DELIMITED
    ensures record.valueStart <= start <= record.next
  {
    record.valueStart + ReadVarint(encoded[record.valueStart..]).value.1
  }

  /** `field` is exactly the slice `lo..hi` of the message. */
  datatype Span = Span(lo: nat, hi: nat)

  ghost predicate AreSlices(message: seq<byte>, start: nat, spans: seq<Span>, contents: seq<(nat, seq<byte>)>) {
    && |spans| == |contents|
    && (forall i :: 0 <= i < |spans| ==>
          start <= spans[i].lo <= spans[i].hi <= |message| && contents[i].1 == message[spans[i].lo..spans[i].hi])
    && (forall i, j :: 0 <= i < j < |spans| ==> spans[i].hi <= spans[j].lo)
  }

  lemma SlicesFromEarlier(message: seq<byte>, start: nat, next: nat, spans: seq<Span>, contents: seq<(nat, seq<byte>)>)
    requires start <= next && AreSlices(message, next, spans, contents)
    ensures AreSlices(message, start, spans, contents)
  {
  }

  lemma SlicesCons(message: seq<byte>, start: nat, field: nat, head: Span, spans: seq<Span>,
                   contents: seq<(nat, seq<byte>)>)
    requires start <= head.lo <= head.hi <= |message| && AreSlices(message, head.hi, spans, contents)
    ensures AreSlices(message, start, [head] + spans, [(field, message[head.lo..head.hi])] + contents)
  {
  }

  lemma NothingLeft(message: seq<byte>)
    ensures Fields(message[|message|..]) == Ok([]) && AreSlices(message, |message|, [], [])
  {
    assert message[|message|..] == [];
  }

  /** What extraction yields are disjoint slices of the message, in message order. */
  lemma {:induction false} FieldsAreDisjointSlices(message: seq<byte>, start: nat) returns (spans: seq<Span>)
    requires start <= |message| && Fields(message[start..]).Ok?
    ensures AreSlices(message, start, spans, Fields(message[start..]).value)
    decreases |message| - start
  {
    hide Fields, HeadRecord, AreSlices;
    if start == |message| {
      NothingLeft(message);
      spans := [];
    } else {
      var record, taken := FieldsStep(message, start);
      var next := start + record.next;
      spans := FieldsAreDisjointSlices(message, next);
      var rest := Fields(message[next..]).value;
      if taken.Some? {
        SlicesCons(message, start, record.field, taken.value, spans, rest);
        spans := [taken.value] + spans;
      } else {
        SlicesFromEarlier(message, start, next, spans, rest);
      }
    }
  }

  /** The head record of what is left, and the span it contributes. */
  lemma FieldsStep(message: seq<byte>, start: nat) returns (record: Record, taken: Option<Span>)
    requires start < |message| && Fields(message[start..]).Ok?
    ensures HeadRecord(message[start..], []) == Ok(record)
    ensures 0 < record.next && start + record.next <= |message| && Fields(message[start + record.next..]).Ok?
    ensures var rest := Fields(message[start + record.next..]).value;
            match taken
            case None => Fields(message[start..]) == Ok(rest)
            case Some(span) => start <= span.lo <= span.hi == start + record.next
                               && Fields(message[start..]) == Ok([(record.field, message[span.lo..span.hi])] + rest)
  {
    var encoded := message[start..];
    record := HeadRecord(encoded, []).value;
    hide HeadRecord;
    DropTwice(message, start, record.next);
    if record.wireType == LENGTH_DELIMITED {
      var lo := ContentStart(encoded, record);
      SliceOfDrop(message, start, lo, record.next);
      taken := Some(Span(start + lo, start + record.next));
    } else {
      taken := None;
    }
  }

  /** Extraction succeeds exactly when validation without known fields does, with the same complaint. */
  lemma {:induction false} ExtractionAgreesWithValidation(encoded: seq<byte>)
    ensures Fields(encoded).Ok? <==> Validated(encoded, []).Ok?
    ensures Fields(encoded).Err? ==> Fields(encoded).error == Validated(encoded, []).error
    decreases |encoded|
  {
    if encoded != [] {
      var head := HeadRecord(encoded, []);
      if head.Ok? {
        ExtractionAgreesWithValidation(encoded[head.value.next..]);
      }
    }
  }

  /** A schema only ever refuses more: whatever it accepts is well formed without it. */
  lemma {:induction false} SchemaOnlyRestricts(encoded: seq<byte>, schema: Schema)
    requires Validated(encoded, schema).Ok?
    ensures Validated(encoded, []).Ok?
    decreases |encoded|
  {
    if encoded != [] {
      SchemaOnlyRestricts(encoded[HeadRecord(encoded, schema).value.next..], schema);
    }
  }

  /** `skip_value` as written: the bytes after the value. */
  method SkipValue(encoded: seq<byte>, wireType: nat) returns (r: Result<seq<byte>, MessageError>)
    ensures match ValueLength(encoded, wireType)
            case Err(error) => r == Err(error)
            case Ok(length) => r == Ok(encoded[length..])
  {
    if wireType == VARINT {
      var decoded := DecodeVarint(encoded);
      if decoded.None? { return Err(MalformedProtobuf); }
      return Ok(encoded[decoded.value.1..]);
    } else if wireType == FIXED64 {
      if |encoded| < 8 { return Err(MalformedProtobuf); }
      return Ok(encoded[8..]);
    } else if wireType == LENGTH_DELIMITED {
      var decoded := DecodeVarint(encoded);
      if decoded.None? { return Err(MalformedProtobuf); }
      var (length, count) := decoded.value;
      var value := encoded[count..];
      if length > |value| { return Err(MalformedProtobuf); }
      assert value[length..] == encoded[count + length..];
      return Ok(value[length..]);
    } else if wireType == FIXED32 {
      if |encoded| < 4 { return Err(MalformedProtobuf); }
      return Ok(encoded[4..]);
    }
    return Err(UnsupportedWireType);
  }

  method FindExpected(schema: Schema, field: nat) returns (r: Option<nat>)
    ensures r == ExpectedWireType(schema, field)
  {
    var index := 0;
    while index < |schema|
      invariant 0 <= index <= |schema|
      invariant ExpectedWireType(schema, field) == ExpectedWireType(schema[index..], field)
    {
      if schema[index].0 == field { return Some(schema[index].1); }
      assert schema[index..][1..] == schema[index + 1..];
      index := index + 1;
    }
    return None;
  }

  /** `validate_fields` as written: a loop that shortens the remaining slice. */
  method ValidateFields(encoded: seq<byte>, schema: Schema) returns (r: Result<(), MessageError>)
    ensures r == Validated(encoded, schema)
  {
    var remaining := encoded;
    while remaining != []
      invariant Validated(encoded, schema) == Validated(remaining, schema)
      decreases |remaining|
    {
      var decoded := DecodeVarint(remaining);
      if decoded.None? { return Err(MalformedProtobuf); }
      var (key, count) := decoded.value;
      var value := remaining[count..];
      var field, wireType := key / 8, key % 8;
      var expected := FindExpected(schema, field);
      if expected.Some? && wireType != expected.value {
        return Err(UnsupportedWireType);
      }
      var skipped := SkipValue(value, wireType);
      if skipped.Err? { return Err(skipped.error); }
      assert skipped.value == remaining[HeadRecord(remaining, schema).value.next..];
      remaining := skipped.value;
    }
    return Ok(());
  }

  /** `values`, then what the rest of the message yields. */
  function Then(values: seq<(nat, seq<byte>)>, rest: Result<seq<(nat, seq<byte>)>, MessageError>)
    : Result<seq<(nat, seq<byte>)>, MessageError>
  {
    match rest
    case Err(error) => Err(error)
    case Ok(more) => Ok(values + more)
  }

  lemma ThenSkipped(values: seq<(nat, seq<byte>)>, encoded: seq<byte>, record: Record)
    requires encoded != [] && HeadRecord(encoded, []) == Ok(record) && record.wireType != LENGTH_DELIMITED
    ensures Then(values, Fields(encoded)) == Then(values, Fields(encoded[record.next..]))
  {
  }

  lemma ThenTaken(values: seq<(nat, seq<byte>)>, encoded: seq<byte>, record: Record)
    requires encoded != [] && HeadRecord(encoded, []) == Ok(record) && record.wireType == LENGTH_DELIMITED
    ensures var value := encoded[ContentStart(encoded, record)..record.next];
            Then(values, Fields(encoded)) == Then(values + [(record.field, value)], Fields(encoded[record.next..]))
  {
    hide HeadRecord;
    var field := [(record.field, encoded[ContentStart(encoded, record)..record.next])];
    var rest := Fields(encoded[record.next..]);
    if rest.Ok? {
      Associate(values, field, rest.value);
    }
  }

  /** The contents behind a length prefix, and what follows them. */
  method SplitDelimited(value: seq<byte>) returns (r: Result<(seq<byte>, seq<byte>), MessageError>)
    ensures ValueLength(value, LENGTH_DELIMITED).Err? ==> r == Err(ValueLength(value, LENGTH_DELIMITED).error)
    ensures ValueLength(value, LENGTH_DELIMITED).Ok? ==>
        var next := ValueLength(value, LENGTH_DELIMITED).value;
        r == Ok((value[ReadVarint(value).value.1..next], value[next..]))
  {
    var prefix := DecodeVarint(value);
    if prefix.None? { return Err(MalformedProtobuf); }
    var (length, lengthBytes) := prefix.value;
    var body := value[lengthBytes..];
    if length > |body| { return Err(MalformedProtobuf); }
    DropTwice(value, lengthBytes, length);
    return Ok((body[..length], body[length..]));
  }

  /** One pass of the extraction loop: the head record's length-delimited contents, if any, and what is left. */
  method TakeRecord(encoded: seq<byte>)
    returns (r: Result<(Option<(nat, seq<byte>)>, seq<byte>), MessageError>)
    requires encoded != []
    ensures HeadRecord(encoded, []).Err? ==> r == Err(HeadRecord(encoded, []).error)
    ensures HeadRecord(encoded, []).Ok? ==>
        var record := HeadRecord(encoded, []).value;
        r == Ok((if record.wireType != LENGTH_DELIMITED then None
                 else Some((record.field, encoded[ContentStart(encoded, record)..record.next])),
                 encoded[record.next..]))
  {
    hide ReadVarint;
    var decoded := DecodeVarint(encoded);
    if decoded.None? { return Err(MalformedProtobuf); }
    var (key, count) := decoded.value;
    var value := encoded[count..];
    if key % 8 == VARINT || key % 8 == FIXED64 || key % 8 == FIXED32 {
      var skipped := SkipValue(value, key % 8);
      if skipped.Err? { return Err(skipped.error); }
      DropTwice(encoded, count, ValueLength(value, key % 8).value);
      return Ok((None, skipped.value));
    } else if key % 8 == LENGTH_DELIMITED {
      var parts := SplitDelimited(value);
      if parts.Err? { return Err(parts.error); }
      ghost var next := ValueLength(value, LENGTH_DELIMITED).value;
      DropTwice(encoded, count, next);
      SliceOfDrop(encoded, count, ReadVarint(value).value.1, next);
      return Ok((Some((key / 8, parts.value.0)), parts.value.1));
    }
    return Err(UnsupportedWireType);
  }

  lemma SliceOfDrop(s: seq<byte>, start: nat, lo: nat, hi: nat)
    requires lo <= hi && start + hi <= |s|
    ensures s[start..][lo..hi] == s[start + lo..start + hi]
  {
  }

  /** `length_delimited_fields` as written: a loop that collects slices of the message. */
  method LengthDelimitedFields(encoded: seq<byte>) returns (r: Result<seq<(nat, seq<byte>)>, MessageError>)
    ensures r == Fields(encoded)
  {
    var values: seq<(nat, seq<byte>)> := [];
    var remaining := encoded;
    assert Then(values, Fields(encoded)) == Fields(encoded) by {
      if Fields(encoded).Ok? { assert [] + Fields(encoded).value == Fields(encoded).value; }
    }
    while remaining != []
      invariant Then(values, Fields(remaining)) == Fields(encoded)
      decreases |remaining|
    {
      var step := TakeRecord(remaining);
      if step.Err? { return Err(step.error); }
      ghost var record := HeadRecord(remaining, []).value;
      if step.value.0.Some? {
        ThenTaken(values, remaining, record);
        values := values + [step.value.0.value];
      } else {
        ThenSkipped(values, remaining, record);
      }
      remaining := step.value.1;
    }
    assert values + [] == values;
    return Ok(values);
  }
}
