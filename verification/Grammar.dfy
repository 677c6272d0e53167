/** What a well-formed message is, said of the bytes alone, and that this is exactly what the validator accepts. */
module Grammar {
  import opened Prelude
  import opened Varint
  import opened Message
  import opened Batch

  // ---- Numbers --------------------------------------------------------------

  /** The number seven bits at a time, least significant group first. */
  function Weighted(groups: seq<byte>): nat {
    if groups == [] then 0 else groups[0] % 128 + 128 * Weighted(groups[1..])
  }

  /** All but the last byte have the top bit set. */
  predicate Continued(groups: seq<byte>) {
    groups != [] && groups[|groups| - 1] < 128 && forall k :: 0 <= k < |groups| - 1 ==> groups[k] >= 128
  }

  /** One number of at most ten bytes and 64 bits; leading zero groups are allowed. */
  predicate IsNumber(groups: seq<byte>) {
    Continued(groups) && |groups| <= 10 && Weighted(groups) < 0x1_0000_0000_0000_0000
  }

  lemma ContinuedTail(groups: seq<byte>)
    requires groups != []
    ensures Continued(groups) <==> if |groups| == 1 then groups[0] < 128 else groups[0] >= 128 && Continued(groups[1..])
  {
    if |groups| > 1 {
      assert groups[1..][|groups| - 2] == groups[|groups| - 1];
      if Continued(groups[1..]) && groups[0] >= 128 {
        forall k | 0 <= k < |groups| - 1 ensures groups[k] >= 128 {
          if k > 0 { assert groups[k] == groups[1..][k - 1]; }
        }
      }
    }
  }

  /** The first `count` bytes are a number that fits what the position `index` still has room for. */
  predicate Reads(encoded: seq<byte>, index: nat, count: nat)
    requires index < MAXIMUM_VARINT_BYTES
  {
    1 <= count <= |encoded| && count + index <= MAXIMUM_VARINT_BYTES
    && Continued(encoded[..count]) && Weighted(encoded[..count]) < Capacity(index)
  }

  lemma ReadsTail(encoded: seq<byte>, index: nat, count: nat)
    requires index < 9 && 2 <= count <= |encoded| && encoded[0] >= 128
    ensures Reads(encoded, index, count) <==> Reads(encoded[1..], index + 1, count - 1)
    ensures Weighted(encoded[..count]) == encoded[0] % 128 + 128 * Weighted(encoded[1..][..count - 1])
  {
    assert encoded[..count][1..] == encoded[1..][..count - 1];
    ContinuedTail(encoded[..count]);
  }

  lemma OneByteReads(encoded: seq<byte>, index: nat, count: nat)
    requires index < MAXIMUM_VARINT_BYTES && encoded != []
    ensures encoded[0] < 128 ==>
              (Reads(encoded, index, count) <==> count == 1 && (index < 9 || encoded[0] <= 1))
    ensures encoded[0] >= 128 ==> !Reads(encoded, index, 1) && (index == 9 ==> !Reads(encoded, index, count))
    ensures Weighted(encoded[..1]) == encoded[0] % 128
  {
    assert encoded[..1] == [encoded[0]];
    assert Weighted([encoded[0]]) == encoded[0] % 128;
    if 1 <= count <= |encoded| { ContinuedTail(encoded[..count]); }
    CapacityAtLeast(index);
    if index < 9 { CapacityAtLeast(index + 1); }
  }

  lemma {:induction false} VarintAtIff(encoded: seq<byte>, index: nat, count: nat)
    requires index < MAXIMUM_VARINT_BYTES
    ensures (VarintAt(encoded, index).Some? && VarintAt(encoded, index).value.1 == count) <==>
            Reads(encoded, index, count)
    ensures Reads(encoded, index, count) ==>
              VarintAt(encoded, index) == Some((Weighted(encoded[..count]), count))
    decreases MAXIMUM_VARINT_BYTES - index
  {
    assert Reads(encoded, index, count) ==> 1 <= count <= |encoded|;
    if encoded != [] {
      OneByteReads(encoded, index, count);
      if encoded[0] >= 128 && index < 9 && 2 <= count <= |encoded| {
        VarintAtIff(encoded[1..], index + 1, count - 1);
        ReadsTail(encoded, index, count);
      }
    }
    hide Reads, Weighted;
  }

  /** Reading takes exactly the number at the front, whatever follows it. */
  lemma ReadVarintIff(encoded: seq<byte>, count: nat)
    ensures (ReadVarint(encoded).Some? && ReadVarint(encoded).value.1 == count) <==>
            count <= |encoded| && IsNumber(encoded[..count])
    ensures count <= |encoded| && IsNumber(encoded[..count]) ==>
              ReadVarint(encoded) == Some((Weighted(encoded[..count]), count))
  {
    VarintAtIff(encoded, 0, count);
    FullCapacity();
  }

  // ---- Messages -------------------------------------------------------------

  /** A length and as many bytes as it says. */
  predicate IsDelimited(value: seq<byte>, cut: nat) {
    cut <= |value| && IsNumber(value[..cut]) && Weighted(value[..cut]) == |value| - cut
  }

  /** What a field's value looks like, by its wire type: a number, eight bytes, counted bytes or four bytes. */
  ghost predicate IsValue(value: seq<byte>, wireType: nat) {
    || (wireType == 0 && IsNumber(value))
    || (wireType == 1 && |value| == 8)
    || (wireType == 2 && exists cut: nat :: IsDelimited(value, cut))
    || (wireType == 5 && |value| == 4)
  }

  /** The first thing the schema says about the field, if anything, is this wire type. */
  predicate Suits(schema: Schema, field: nat, wireType: nat) {
    forall k :: 0 <= k < |schema| && schema[k].0 == field && (forall j :: 0 <= j < k ==> schema[j].0 != field) ==>
      schema[k].1 == wireType
  }

  /** One field: a key of `cut` bytes that holds field and wire type, and a value of that type. */
  ghost predicate IsFieldAt(piece: seq<byte>, cut: nat, schema: Schema) {
    && cut <= |piece| && IsNumber(piece[..cut])
    && var key := Weighted(piece[..cut]);
       Suits(schema, key / 8, key % 8) && IsValue(piece[cut..], key % 8)
  }

  ghost predicate IsField(piece: seq<byte>, schema: Schema) {
    exists cut: nat :: IsFieldAt(piece, cut, schema)
  }

  function Joined(pieces: seq<seq<byte>>): seq<byte> {
    if pieces == [] then [] else pieces[0] + Joined(pieces[1..])
  }

  ghost predicate AllFields(pieces: seq<seq<byte>>, schema: Schema) {
    forall k :: 0 <= k < |pieces| ==> IsField(pieces[k], schema)
  }

  /** A message is one field after another and nothing else. */
  ghost predicate IsMessage(encoded: seq<byte>, schema: Schema) {
    exists pieces :: Joined(pieces) == encoded && AllFields(pieces, schema)
  }

  lemma {:induction false} SuitsIff(schema: Schema, field: nat, wireType: nat)
    ensures Suits(schema, field, wireType) <==> ExpectedWireType(schema, field) in {None, Some(wireType)}
  {
    if schema != [] && schema[0].0 != field {
      var rest := schema[1..];
      SuitsIff(rest, field, wireType);
      assert forall k :: 0 <= k < |rest| ==> rest[k] == schema[k + 1];
      if Suits(schema, field, wireType) {
        forall k | 0 <= k < |rest| && rest[k].0 == field && (forall j :: 0 <= j < k ==> rest[j].0 != field)
          ensures rest[k].1 == wireType
        {
          assert schema[k + 1] == rest[k];
          assert forall j :: 0 <= j < k + 1 ==> j == 0 || schema[j] == rest[j - 1];
        }
      }
      if Suits(rest, field, wireType) {
        forall k | 0 <= k < |schema| && schema[k].0 == field && (forall j :: 0 <= j < k ==> schema[j].0 != field)
          ensures schema[k].1 == wireType
        {
          assert rest[k - 1] == schema[k];
          assert forall j :: 0 <= j < k - 1 ==> rest[j] == schema[j + 1];
        }
      }
    }
  }

  lemma DelimitedIff(encoded: seq<byte>, length: nat)
    ensures ValueLength(encoded, LENGTH_DELIMITED) == Ok(length)
            <==> length <= |encoded| && exists cut: nat :: IsDelimited(encoded[..length], cut)
  {
    if length <= |encoded| {
      if cut: nat :| IsDelimited(encoded[..length], cut) {
        assert encoded[..length][..cut] == encoded[..cut];
        ReadVarintIff(encoded, cut);
      }
      if ReadVarint(encoded).Some? && ValueLength(encoded, LENGTH_DELIMITED) == Ok(length) {
        var (value, cut) := ReadVarint(encoded).value;
        ReadVarintIff(encoded, cut);
        assert encoded[..length][..cut] == encoded[..cut];
        assert IsDelimited(encoded[..length], cut);
      }
    }
    hide IsNumber, Weighted;
  }

  lemma ValueIff(encoded: seq<byte>, wireType: nat, length: nat)
    ensures ValueLength(encoded, wireType) == Ok(length)
            <==> length <= |encoded| && IsValue(encoded[..length], wireType)
  {
    ReadVarintIff(encoded, length);
    DelimitedIff(encoded, length);
    hide IsNumber, ReadVarint;
  }

  lemma FieldEnds(encoded: seq<byte>, cut: nat, next: nat, schema: Schema)
    requires encoded != [] && cut <= next <= |encoded| && IsNumber(encoded[..cut])
    ensures (HeadRecord(encoded, schema).Ok? && HeadRecord(encoded, schema).value.next == next)
            <==> IsFieldAt(encoded[..next], cut, schema)
  {
    ReadVarintIff(encoded, cut);
    var key := Weighted(encoded[..cut]);
    SuitsIff(schema, key / 8, key % 8);
    ValueIff(encoded[cut..], key % 8, next - cut);
    assert encoded[..next][..cut] == encoded[..cut];
    assert encoded[..next][cut..] == encoded[cut..][..next - cut];
    hide IsNumber, Weighted, ValueLength, IsValue, Suits, ReadVarint, ExpectedWireType;
  }

  lemma HeadIff(encoded: seq<byte>, next: nat, schema: Schema)
    requires encoded != []
    ensures (HeadRecord(encoded, schema).Ok? && HeadRecord(encoded, schema).value.next == next)
            <==> next <= |encoded| && IsField(encoded[..next], schema)
  {
    if next <= |encoded| {
      if cut: nat :| IsFieldAt(encoded[..next], cut, schema) {
        assert encoded[..next][..cut] == encoded[..cut];
        FieldEnds(encoded, cut, next, schema);
      }
      if HeadRecord(encoded, schema).Ok? && HeadRecord(encoded, schema).value.next == next {
        var cut := HeadRecord(encoded, schema).value.valueStart;
        HeadStartsWithKey(encoded, schema);
        FieldEnds(encoded, cut, next, schema);
      }
    }
    hide IsFieldAt, HeadRecord;
  }

  lemma HeadStartsWithKey(encoded: seq<byte>, schema: Schema)
    requires encoded != [] && HeadRecord(encoded, schema).Ok?
    ensures IsNumber(encoded[..HeadRecord(encoded, schema).value.valueStart])
  {
    ReadVarintIff(encoded, ReadVarint(encoded).value.1);
    hide IsNumber, ReadVarint, ValueLength;
  }

  lemma {:induction false} FieldsAreAccepted(pieces: seq<seq<byte>>, schema: Schema)
    requires AllFields(pieces, schema)
    ensures Validated(Joined(pieces), schema) == Ok(())
  {
    if pieces != [] {
      var encoded := Joined(pieces);
      FieldsAreAccepted(pieces[1..], schema);
      assert IsField(pieces[0], schema);
      FieldIsNotEmpty(pieces[0], schema);
      assert encoded[..|pieces[0]|] == pieces[0] && encoded[|pieces[0]|..] == Joined(pieces[1..]);
      HeadIff(encoded, |pieces[0]|, schema);
    }
    hide IsField, HeadRecord;
  }

  lemma FieldIsNotEmpty(piece: seq<byte>, schema: Schema)
    requires IsField(piece, schema)
    ensures piece != []
  {
  }

  lemma {:induction false} AcceptedIsFields(encoded: seq<byte>, schema: Schema) returns (pieces: seq<seq<byte>>)
    requires Validated(encoded, schema).Ok?
    ensures Joined(pieces) == encoded && AllFields(pieces, schema)
    decreases |encoded|
  {
    hide IsField, HeadRecord;
    if encoded == [] {
      pieces := [];
    } else {
      var next := HeadRecord(encoded, schema).value.next;
      HeadIff(encoded, next, schema);
      var rest := AcceptedIsFields(encoded[next..], schema);
      pieces := [encoded[..next]] + rest;
      assert pieces[1..] == rest && encoded[..next] + encoded[next..] == encoded;
      assert IsField(pieces[0], schema);
    }
  }

  /** The validator accepts exactly the messages. */
  lemma ValidatedIff(encoded: seq<byte>, schema: Schema)
    ensures Validated(encoded, schema).Ok? <==> IsMessage(encoded, schema)
  {
    if Validated(encoded, schema).Ok? {
      var pieces := AcceptedIsFields(encoded, schema);
    }
    if pieces :| Joined(pieces) == encoded && AllFields(pieces, schema) { FieldsAreAccepted(pieces, schema); }
    hide AllFields, Validated;
  }

  // ---- Why a message is refused ---------------------------------------------

  /** The key at the front asks for a wire type that does not exist here or that the schema does not allow. */
  ghost predicate AsksForOther(encoded: seq<byte>, schema: Schema) {
    exists cut: nat :: cut <= |encoded| && IsNumber(encoded[..cut])
      && var key := Weighted(encoded[..cut]); !Suits(schema, key / 8, key % 8) || key % 8 !in {0, 1, 2, 5}
  }

  lemma UnsupportedIff(encoded: seq<byte>, schema: Schema)
    requires encoded != []
    ensures HeadRecord(encoded, schema) == Err(UnsupportedWireType) <==> AsksForOther(encoded, schema)
  {
    if ReadVarint(encoded).Some? {
      var (key, cut) := ReadVarint(encoded).value;
      ReadVarintIff(encoded, cut);
      SuitsIff(schema, key / 8, key % 8);
    }
    if cut: nat :| cut <= |encoded| && IsNumber(encoded[..cut])
                   && var key := Weighted(encoded[..cut]); !Suits(schema, key / 8, key % 8) || key % 8 !in {0, 1, 2, 5}
    {
      ReadVarintIff(encoded, cut);
      SuitsIff(schema, Weighted(encoded[..cut]) / 8, Weighted(encoded[..cut]) % 8);
    }
    hide IsNumber, Weighted, ReadVarint, ExpectedWireType, Suits;
  }

  /** A refused message is fields up to somewhere, and the complaint is about what comes next. */
  lemma {:induction false} RefusedAt(encoded: seq<byte>, schema: Schema) returns (at: nat)
    requires Validated(encoded, schema).Err?
    ensures at < |encoded| && IsMessage(encoded[..at], schema)
    ensures forall next: nat :: at < next <= |encoded| ==> !IsField(encoded[at..next], schema)
    ensures Validated(encoded, schema).error
            == if AsksForOther(encoded[at..], schema) then UnsupportedWireType else MalformedProtobuf
    decreases |encoded|
  {
    hide IsField, HeadRecord, AsksForOther;
    if HeadRecord(encoded, schema).Err? {
      at := 0;
      UnsupportedIff(encoded, schema);
      assert encoded[0..] == encoded && encoded[..0] == [];
      assert Joined([]) == [] && AllFields([], schema);
      forall next: nat | 0 < next <= |encoded| ensures !IsField(encoded[0..next], schema) {
        HeadIff(encoded, next, schema);
        assert encoded[0..next] == encoded[..next];
      }
    } else {
      var next := HeadRecord(encoded, schema).value.next;
      var rest := RefusedAt(encoded[next..], schema);
      at := next + rest;
      HeadIff(encoded, next, schema);
      var pieces :| Joined(pieces) == encoded[next..][..rest] && AllFields(pieces, schema);
      var all := [encoded[..next]] + pieces;
      assert all[1..] == pieces && Joined(all) == encoded[..next] + encoded[next..][..rest] == encoded[..at];
      assert AllFields(all, schema);
      assert encoded[at..] == encoded[next..][rest..];
      forall end: nat | at < end <= |encoded| ensures !IsField(encoded[at..end], schema) {
        assert encoded[at..end] == encoded[next..][rest..end - next];
      }
    }
  }

  // ---- Batches --------------------------------------------------------------

  /** Bytes, viewport, marker and control of an instruction, each in its own message. */
  ghost predicate IsPart(part: (nat, seq<byte>)) {
    && (part.0 == 2 ==> IsMessage(part.1, [(4, 2)]))
    && (part.0 == 3 ==> IsMessage(part.1, [(5, 0), (6, 0)]))
    && (part.0 == 7 ==> IsMessage(part.1, [(8, 0)]))
    && (part.0 == 9 ==> IsMessage(part.1, [(10, 0), (11, 2)]))
  }

  ghost predicate IsInstruction(encoded: seq<byte>) {
    && IsMessage(encoded, [(2, 2), (3, 2), (7, 2), (9, 2)])
    && Fields(encoded).Ok? && forall k :: 0 <= k < |Fields(encoded).value| ==> IsPart(Fields(encoded).value[k])
  }

  ghost predicate IsBatch(encoded: seq<byte>) {
    && IsMessage(encoded, [(1, 2)])
    && Fields(encoded).Ok?
    && forall k :: 0 <= k < |Fields(encoded).value| && Fields(encoded).value[k].0 == 1 ==>
         IsInstruction(Fields(encoded).value[k].1)
  }

  lemma PartIff(part: (nat, seq<byte>))
    ensures ValidatedPart(part.0, part.1).Ok? <==> IsPart(part)
  {
    ValidatedIff(part.1, [(4, 2)]);
    ValidatedIff(part.1, [(5, 0), (6, 0)]);
    ValidatedIff(part.1, [(8, 0)]);
    ValidatedIff(part.1, [(10, 0), (11, 2)]);
    hide Validated, IsMessage;
  }

  lemma {:induction false} PartsIff(parts: seq<(nat, seq<byte>)>)
    ensures ValidatedParts(parts).Ok? <==> forall k :: 0 <= k < |parts| ==> IsPart(parts[k])
  {
    if parts != [] {
      PartIff(parts[0]);
      PartsIff(parts[1..]);
      assert forall k :: 0 < k < |parts| ==> parts[k] == parts[1..][k - 1];
    }
    hide ValidatedPart, IsPart;
  }

  lemma InstructionIff(encoded: seq<byte>)
    ensures ValidatedInstruction(encoded).Ok? <==> IsInstruction(encoded)
  {
    ValidatedIff(encoded, [(2, 2), (3, 2), (7, 2), (9, 2)]);
    if Fields(encoded).Ok? { PartsIff(Fields(encoded).value); }
    hide Validated, Fields, ValidatedParts, IsMessage, IsPart;
  }

  lemma {:induction false} InstructionsIff(fields: seq<(nat, seq<byte>)>)
    ensures ValidatedInstructions(fields).Ok?
            <==> forall k :: 0 <= k < |fields| && fields[k].0 == 1 ==> IsInstruction(fields[k].1)
  {
    if fields != [] {
      InstructionIff(fields[0].1);
      InstructionsIff(fields[1..]);
      assert forall k :: 0 < k < |fields| ==> fields[k] == fields[1..][k - 1];
    }
    hide ValidatedInstruction, IsInstruction;
  }

  /** The validator accepts exactly the batches: fields all the way down, of the types the protocol names. */
  lemma BatchIff(encoded: seq<byte>)
    ensures ValidatedBatch(encoded).Ok? <==> IsBatch(encoded)
  {
    ValidatedIff(encoded, [(1, 2)]);
    if Fields(encoded).Ok? { InstructionsIff(Fields(encoded).value); }
    hide Validated, Fields, ValidatedInstructions, IsMessage, IsInstruction;
  }
}
