/**
 Instruction batches on the wire: the encoder given by the message tags, the
 validator that runs before decoding, and why the two fit together.
 */
module Batch {
  import opened Prelude
  import opened Wire
  import opened Varint
  import opened Message

  const BATCH_SCHEMA: Schema := [(1, LENGTH_DELIMITED)]
  const INSTRUCTION_SCHEMA: Schema :=
    [(2, LENGTH_DELIMITED), (3, LENGTH_DELIMITED), (7, LENGTH_DELIMITED), (9, LENGTH_DELIMITED)]
  const BYTES_SCHEMA: Schema := [(4, LENGTH_DELIMITED)]
  const VIEWPORT_SCHEMA: Schema := [(5, VARINT), (6, VARINT)]
  const MARKER_SCHEMA: Schema := [(8, VARINT)]
  const CONTROL_SCHEMA: Schema := [(10, VARINT), (11, LENGTH_DELIMITED)]

  // ---- Encoding -------------------------------------------------------------

  function LengthDelimited(field: nat, value: seq<byte>): seq<byte> {
    EncodeVarint(field * 8 + LENGTH_DELIMITED) + EncodeVarint(|value|) + value
  }

  /** A scalar field; the default value is not sent. */
  function Scalar(field: nat, value: nat): seq<byte> {
    if value == 0 then [] else EncodeVarint(field * 8 + VARINT) + EncodeVarint(value)
  }

  /** A bytes field; the empty default is not sent. */
  function Blob(field: nat, value: seq<byte>): seq<byte> {
    if value == [] then [] else LengthDelimited(field, value)
  }

  function EncodeViewport(viewport: Viewport): seq<byte> {
    Scalar(5, viewport.columns) + Scalar(6, viewport.rows)
  }

  function EncodeControl(control: SessionControl): seq<byte> {
    Scalar(10, control.kind) + Blob(11, control.payload)
  }

  /** The submessages an instruction carries, in tag order. */
  function Parts(instruction: Instruction): seq<(nat, seq<byte>)> {
    (if instruction.bytes.Some? then [(2, Blob(4, instruction.bytes.value))] else [])
    + (if instruction.viewport.Some? then [(3, EncodeViewport(instruction.viewport.value))] else [])
    + (if instruction.marker.Some? then [(7, Scalar(8, instruction.marker.value))] else [])
    + (if instruction.control.Some? then [(9, EncodeControl(instruction.control.value))] else [])
  }

  function EncodeParts(parts: seq<(nat, seq<byte>)>): seq<byte> {
    if parts == [] then [] else LengthDelimited(parts[0].0, parts[0].1) + EncodeParts(parts[1..])
  }

  function EncodeInstruction(instruction: Instruction): seq<byte> {
    EncodeParts(Parts(instruction))
  }

  function BatchParts(batch: seq<Instruction>): (parts: seq<(nat, seq<byte>)>)
    ensures |parts| == |batch|
    ensures forall i :: 0 <= i < |batch| ==> parts[i] == (1, EncodeInstruction(batch[i]))
  {
    seq(|batch|, i requires 0 <= i < |batch| => (1, EncodeInstruction(batch[i])))
  }

  /** `InstructionBatch::encode_bytes`. */
  function EncodeBatch(batch: seq<Instruction>): seq<byte> {
    EncodeParts(BatchParts(batch))
  }

  // ---- Validation -----------------------------------------------------------

  /** What one part of an instruction must look like; other fields are skipped. */
  function ValidatedPart(field: nat, value: seq<byte>): Result<(), MessageError> {
    if field == 2 then Validated(value, BYTES_SCHEMA)
    else if field == 3 then Validated(value, VIEWPORT_SCHEMA)
    else if field == 7 then Validated(value, MARKER_SCHEMA)
    else if field == 9 then Validated(value, CONTROL_SCHEMA)
    else Ok(())
  }

  /** The first complaint about a list of instruction parts. */
  function ValidatedParts(parts: seq<(nat, seq<byte>)>): Result<(), MessageError> {
    if parts == [] then Ok(())
    else if ValidatedPart(parts[0].0, parts[0].1).Err? then ValidatedPart(parts[0].0, parts[0].1)
    else ValidatedParts(parts[1..])
  }

  function ValidatedInstruction(encoded: seq<byte>): Result<(), MessageError> {
    if Validated(encoded, INSTRUCTION_SCHEMA).Err? then Validated(encoded, INSTRUCTION_SCHEMA)
    else
      match Fields(encoded)
      case Err(error) => Err(error)
      case Ok(parts) => ValidatedParts(parts)
  }

  /** The first complaint about the instructions among a batch's fields. */
  function ValidatedInstructions(fields: seq<(nat, seq<byte>)>): Result<(), MessageError> {
    if fields == [] then Ok(())
    else if fields[0].0 == 1 && ValidatedInstruction(fields[0].1).Err? then ValidatedInstruction(fields[0].1)
    else ValidatedInstructions(fields[1..])
  }

  function ValidatedBatch(encoded: seq<byte>): Result<(), MessageError> {
    if Validated(encoded, BATCH_SCHEMA).Err? then Validated(encoded, BATCH_SCHEMA)
    else
      match Fields(encoded)
      case Err(error) => Err(error)
      case Ok(fields) => ValidatedInstructions(fields)
  }

  /** `length_delimited_values`: the contents of the fields the schema allows as length-delimited. */
  method LengthDelimitedValues(encoded: seq<byte>, schema: Schema)
    returns (r: Result<seq<(nat, seq<byte>)>, MessageError>)
    ensures r == if Validated(encoded, schema).Err? then Err(Validated(encoded, schema).error)
                 else if Fields(encoded).Err? then Err(Fields(encoded).error)
                 else Ok(Allowed(Fields(encoded).value, schema))
  {
    var valid := ValidateFields(encoded, schema);
    if valid.Err? { return Err(valid.error); }
    var fields := LengthDelimitedFields(encoded);
    if fields.Err? { return fields; }
    return Ok(Allowed(fields.value, schema));
  }

  function Allowed(fields: seq<(nat, seq<byte>)>, schema: Schema): seq<(nat, seq<byte>)> {
    if fields == [] then []
    else (if (fields[0].0, LENGTH_DELIMITED) in schema then [fields[0]] else []) + Allowed(fields[1..], schema)
  }

  lemma {:induction false} AllowedInstructions(fields: seq<(nat, seq<byte>)>)
    ensures ValidatedInstructions(Allowed(fields, BATCH_SCHEMA)) == ValidatedInstructions(fields)
    ensures forall f :: f in Allowed(fields, BATCH_SCHEMA) ==> f.0 == 1
  {
    if fields != [] {
      AllowedInstructions(fields[1..]);
      if fields[0].0 == 1 {
        assert (fields[0].0, LENGTH_DELIMITED) == BATCH_SCHEMA[0];
        assert Allowed(fields, BATCH_SCHEMA)[1..] == Allowed(fields[1..], BATCH_SCHEMA);
      } else {
        assert Allowed(fields, BATCH_SCHEMA) == Allowed(fields[1..], BATCH_SCHEMA);
      }
    }
  }

  /** The per-instruction body of the validation loop. */
  method ValidateInstruction(instruction: seq<byte>) returns (r: Result<(), MessageError>)
    ensures r == ValidatedInstruction(instruction)
  {
    hide Validated, Fields;
    var valid := ValidateFields(instruction, INSTRUCTION_SCHEMA);
    if valid.Err? { return valid; }
    var extracted := LengthDelimitedFields(instruction);
    if extracted.Err? { return Err(extracted.error); }
    var parts := extracted.value;
    var j := 0;
    while j < |parts|
      invariant 0 <= j <= |parts|
      invariant ValidatedParts(parts) == ValidatedParts(parts[j..])
    {
      var (field, value) := parts[j];
      DropTwice(parts, j, 1);
      var part := Ok(());
      if field == 2 { part := ValidateFields(value, BYTES_SCHEMA); }
      else if field == 3 { part := ValidateFields(value, VIEWPORT_SCHEMA); }
      else if field == 7 { part := ValidateFields(value, MARKER_SCHEMA); }
      else if field == 9 { part := ValidateFields(value, CONTROL_SCHEMA); }
      if part.Err? { return part; }
      j := j + 1;
    }
    return Ok(());
  }

  /** `validate_instruction_batch` as written: nested loops over the fields. */
  method ValidateInstructionBatch(encoded: seq<byte>) returns (r: Result<(), MessageError>)
    ensures r == ValidatedBatch(encoded)
  {
    var values := LengthDelimitedValues(encoded, BATCH_SCHEMA);
    if values.Err? { return Err(values.error); }
    AllowedInstructions(Fields(encoded).value);
    var instructions := values.value;
    var i := 0;
    while i < |instructions|
      invariant 0 <= i <= |instructions|
      invariant ValidatedInstructions(instructions) == ValidatedInstructions(instructions[i..])
    {
      assert instructions[i] in instructions;
      DropTwice(instructions, i, 1);
      var valid := ValidateInstruction(instructions[i].1);
      if valid.Err? { return valid; }
      i := i + 1;
    }
    return Ok(());
  }

  // ---- The encoder meets the validator -------------------------------------

  /** A record starts with its key; what follows the key decides how long it is. */
  lemma HeadOf(key: u64, value: seq<byte>, schema: Schema)
    ensures var expected := ExpectedWireType(schema, key / 8);
            HeadRecord(EncodeVarint(key) + value, schema) ==
            if expected.Some? && expected.value != key % 8 then Err(UnsupportedWireType)
            else match ValueLength(value, key % 8)
                 case Err(error) => Err(error)
                 case Ok(length) => Ok(Record(key / 8, key % 8, |EncodeVarint(key)|, |EncodeVarint(key)| + length))
  {
    ReadInvertsEncode(key, value);
    DropPrefix(EncodeVarint(key), value);
  }

  /** A message that starts with a record acceptable to the schema is as valid as the rest of it. */
  lemma AfterRecord(key: u64, value: seq<byte>, rest: seq<byte>, schema: Schema)
    requires ExpectedWireType(schema, key / 8) in {None, Some(key % 8)}
    requires ValueLength(value + rest, key % 8) == Ok(|value|)
    ensures Validated(EncodeVarint(key) + value + rest, schema) == Validated(rest, schema)
  {
    var prefix := EncodeVarint(key);
    HeadOf(key, value + rest, schema);
    assert prefix + value + rest == prefix + (value + rest);
    DropPrefix(prefix + value, rest);
  }

  lemma LengthPrefixed(value: seq<byte>, rest: seq<byte>)
    requires |value| <= USIZE_MAX
    ensures ReadVarint(EncodeVarint(|value|) + value + rest) == Some((|value|, |EncodeVarint(|value|)|))
    ensures ValueLength(EncodeVarint(|value|) + value + rest, LENGTH_DELIMITED)
         == Ok(|EncodeVarint(|value|) + value|)
  {
    var length := EncodeVarint(|value|);
    ReadInvertsEncode(|value|, value + rest);
    assert length + value + rest == length + (value + rest);
  }

  lemma LengthDelimitedIsSkipped(field: nat, value: seq<byte>, rest: seq<byte>, schema: Schema)
    requires field < 16 && |value| <= USIZE_MAX
    requires ExpectedWireType(schema, field) in {None, Some(LENGTH_DELIMITED)}
    ensures Validated(LengthDelimited(field, value) + rest, schema) == Validated(rest, schema)
  {
    hide EncodeVarint, ReadVarint, ValueLength, Validated, ExpectedWireType;
    var length := EncodeVarint(|value|);
    LengthPrefixed(value, rest);
    AfterRecord(field * 8 + LENGTH_DELIMITED, length + value, rest, schema);
    assert EncodeVarint(field * 8 + LENGTH_DELIMITED) + (length + value) == LengthDelimited(field, value);
  }

  lemma LengthDelimitedIsExtracted(field: nat, value: seq<byte>, rest: seq<byte>)
    requires field < 16 && |value| <= USIZE_MAX && Fields(rest).Ok?
    ensures Fields(LengthDelimited(field, value) + rest) == Ok([(field, value)] + Fields(rest).value)
  {
    var encoded := LengthDelimited(field, value) + rest;
    var record := HeadOfLengthDelimited(field, value, rest);
    assert encoded[record.next..] == rest by { DropPrefix(LengthDelimited(field, value), rest); }
    assert encoded[ContentStart(encoded, record)..record.next] == value by {
      MiddleSlice(EncodeVarint(field * 8 + LENGTH_DELIMITED) + EncodeVarint(|value|), value, rest);
    }
  }

  lemma HeadOfLengthDelimited(field: nat, value: seq<byte>, rest: seq<byte>) returns (record: Record)
    requires field < 16 && |value| <= USIZE_MAX
    ensures HeadRecord(LengthDelimited(field, value) + rest, []) == Ok(record)
    ensures record.field == field && record.wireType == LENGTH_DELIMITED
    ensures record.next == |LengthDelimited(field, value)|
    ensures ContentStart(LengthDelimited(field, value) + rest, record) == record.next - |value|
  {
    hide EncodeVarint, ReadVarint, ValueLength, HeadRecord;
    var key, length := EncodeVarint(field * 8 + LENGTH_DELIMITED), EncodeVarint(|value|);
    LengthPrefixed(value, rest);
    HeadOf(field * 8 + LENGTH_DELIMITED, length + value + rest, []);
    assert LengthDelimited(field, value) + rest == key + (length + value + rest);
    DropPrefix(key, length + value + rest);
    record := Record(field, LENGTH_DELIMITED, |key|, |LengthDelimited(field, value)|);
  }

  lemma MiddleSlice(a: seq<byte>, b: seq<byte>, c: seq<byte>)
    ensures (a + b + c)[|a|..|a| + |b|] == b
  {
  }

  lemma ScalarIsSkipped(field: nat, value: u64, rest: seq<byte>, schema: Schema)
    requires field < 16
    requires ExpectedWireType(schema, field) in {None, Some(VARINT)}
    ensures Validated(Scalar(field, value) + rest, schema) == Validated(rest, schema)
  {
    if value == 0 {
      assert Scalar(field, value) + rest == rest;
    } else {
      ReadInvertsEncode(value, rest);
      AfterRecord(field * 8, EncodeVarint(value), rest, schema);
    }
  }

  lemma BlobIsValid(field: nat, value: seq<byte>, schema: Schema)
    requires field < 16 && |value| <= USIZE_MAX
    requires ExpectedWireType(schema, field) in {None, Some(LENGTH_DELIMITED)}
    ensures Validated(Blob(field, value), schema) == Ok(())
  {
    if value != [] {
      LengthDelimitedIsSkipped(field, value, [], schema);
      assert LengthDelimited(field, value) + [] == LengthDelimited(field, value);
    }
  }

  predicate Known(parts: seq<(nat, seq<byte>)>, schema: Schema) {
    forall p :: p in parts ==>
      p.0 < 16 && |p.1| <= USIZE_MAX && ExpectedWireType(schema, p.0) in {None, Some(LENGTH_DELIMITED)}
  }

  /** Extraction inverts the encoding of any list of submessages, and validation accepts it. */
  lemma {:induction false} FieldsInvertEncodeParts(parts: seq<(nat, seq<byte>)>, schema: Schema)
    requires Known(parts, schema)
    ensures Fields(EncodeParts(parts)) == Ok(parts)
    ensures Validated(EncodeParts(parts), schema) == Ok(())
  {
    if parts != [] {
      FieldsInvertEncodeParts(parts[1..], schema);
      LengthDelimitedIsSkipped(parts[0].0, parts[0].1, EncodeParts(parts[1..]), schema);
      LengthDelimitedIsExtracted(parts[0].0, parts[0].1, EncodeParts(parts[1..]));
      assert [(parts[0].0, parts[0].1)] + parts[1..] == parts;
    }
  }

  lemma {:induction false} PartsAreShorter(parts: seq<(nat, seq<byte>)>)
    ensures forall p :: p in parts ==> |p.1| <= |EncodeParts(parts)|
  {
    if parts != [] { PartsAreShorter(parts[1..]); }
  }

  lemma PartIsValid(instruction: Instruction, part: (nat, seq<byte>))
    requires part in Parts(instruction) && |part.1| <= USIZE_MAX
    ensures ValidatedPart(part.0, part.1) == Ok(())
    ensures part.0 in {2, 3, 7, 9}
    ensures ExpectedWireType(INSTRUCTION_SCHEMA, part.0) == Some(LENGTH_DELIMITED)
  {
    match part.0 {
      case 2 =>
        BlobIsValid(4, instruction.bytes.value, BYTES_SCHEMA);
      case 3 =>
        var rows := Scalar(6, instruction.viewport.value.rows);
        assert ExpectedWireType(VIEWPORT_SCHEMA[1..], 6) == Some(VARINT);
        ScalarIsSkipped(5, instruction.viewport.value.columns, rows, VIEWPORT_SCHEMA);
        ScalarIsSkipped(6, instruction.viewport.value.rows, [], VIEWPORT_SCHEMA);
        assert rows + [] == rows;
      case 7 =>
        ScalarIsSkipped(8, instruction.marker.value, [], MARKER_SCHEMA);
        assert part.1 + [] == part.1;
      case 9 =>
        var payload := Blob(11, instruction.control.value.payload);
        assert ExpectedWireType(CONTROL_SCHEMA[1..], 11) == Some(LENGTH_DELIMITED);
        ScalarIsSkipped(10, instruction.control.value.kind, payload, CONTROL_SCHEMA);
        BlobIsValid(11, instruction.control.value.payload, CONTROL_SCHEMA);
      case _ =>
    }
    KnownParts(part.0);
  }

  lemma KnownParts(field: nat)
    ensures field in {2, 3, 7, 9} ==> ExpectedWireType(INSTRUCTION_SCHEMA, field) == Some(LENGTH_DELIMITED)
  {
    var tail := INSTRUCTION_SCHEMA[1..];
    assert tail[0] == (3, LENGTH_DELIMITED);
    assert tail[1..][0] == (7, LENGTH_DELIMITED);
    assert tail[1..][1..][0] == (9, LENGTH_DELIMITED);
    assert ExpectedWireType(tail[1..][1..], 9) == Some(LENGTH_DELIMITED);
    assert ExpectedWireType(tail[1..], 9) == Some(LENGTH_DELIMITED);
    assert ExpectedWireType(tail[1..], 7) == Some(LENGTH_DELIMITED);
    assert ExpectedWireType(tail, 7) == Some(LENGTH_DELIMITED);
    assert ExpectedWireType(tail, 9) == Some(LENGTH_DELIMITED);
  }

  lemma {:induction false} PartsAreValid(parts: seq<(nat, seq<byte>)>)
    requires forall p :: p in parts ==> ValidatedPart(p.0, p.1) == Ok(())
    ensures ValidatedParts(parts) == Ok(())
  {
    if parts != [] { PartsAreValid(parts[1..]); }
  }

  /** Extraction gives back the parts of an instruction, and the validator accepts them. */
  lemma InstructionRoundTrip(instruction: Instruction)
    requires |EncodeInstruction(instruction)| <= USIZE_MAX
    ensures Fields(EncodeInstruction(instruction)) == Ok(Parts(instruction))
    ensures ValidatedInstruction(EncodeInstruction(instruction)) == Ok(())
  {
    var parts := Parts(instruction);
    PartsAreShorter(parts);
    forall p | p in parts
      ensures ValidatedPart(p.0, p.1) == Ok(()) && p.0 in {2, 3, 7, 9}
      ensures ExpectedWireType(INSTRUCTION_SCHEMA, p.0) == Some(LENGTH_DELIMITED)
    {
      PartIsValid(instruction, p);
    }
    assert Known(parts, INSTRUCTION_SCHEMA);
    FieldsInvertEncodeParts(parts, INSTRUCTION_SCHEMA);
    PartsAreValid(parts);
  }

  lemma {:induction false} InstructionsAreValid(fields: seq<(nat, seq<byte>)>)
    requires forall f :: f in fields ==> ValidatedInstruction(f.1) == Ok(())
    ensures ValidatedInstructions(fields) == Ok(())
  {
    if fields != [] { InstructionsAreValid(fields[1..]); }
  }

  /** The validator accepts the encoding of every batch, and extraction recovers its instructions in order. */
  lemma EncodedBatchIsAccepted(batch: seq<Instruction>)
    requires |EncodeBatch(batch)| <= USIZE_MAX
    ensures ValidatedBatch(EncodeBatch(batch)) == Ok(())
    ensures Fields(EncodeBatch(batch)) == Ok(BatchParts(batch))
  {
    var parts := BatchParts(batch);
    PartsAreShorter(parts);
    FieldsInvertEncodeParts(parts, BATCH_SCHEMA);
    forall p | p in parts ensures ValidatedInstruction(p.1) == Ok(()) {
      var i :| 0 <= i < |parts| && parts[i] == p;
      InstructionRoundTrip(batch[i]);
    }
    InstructionsAreValid(parts);
  }
}
