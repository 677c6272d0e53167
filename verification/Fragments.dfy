/**
 Fragment framing: splitting a compressed message, the 14-byte header on the
 wire, and the accumulator that reassembles fragments in any order.
 */
module Fragments {
  import opened Prelude

  const FRAGMENT_HEADER_BYTES := 14
  const FINAL_FRAGMENT_BIT := 0x8000
  const MAX_FRAGMENT_BODY_BYTES := 1214
  const MAX_RECEIVED_FRAGMENT_BODY_BYTES := 1300

  // The fifteen bits left for an index beside the final-fragment bit.
  type FragmentIndex = i: int | 0 <= i < FINAL_FRAGMENT_BIT

  datatype FragmentError =
    | HeaderTooShort | BodyTooLarge | TooManyFragments | MismatchedState | IndexAfterFinal
    | ConflictingFinalIndex | ConflictingDuplicate | MessageTooLarge | MissingFragment

  datatype FragmentHeader = FragmentHeader(
    sentTimestamp: u16, echoedTimestamp: u16, stateId: u64, index: FragmentIndex, isFinal: bool)

  datatype Fragment = Fragment(header: FragmentHeader, body: seq<byte>)

  // ---- Header bytes ---------------------------------------------------------

  function BigEndian16(value: u16): (bytes: seq<byte>)
    ensures |bytes| == 2
  {
    [value / 256, value % 256]
  }

  function FromBigEndian16(bytes: seq<byte>): u16
    requires |bytes| == 2
  {
    (bytes[0] as int) * 256 + bytes[1]
  }

  /** `Fragment::encode`. */
  function Encode(fragment: Fragment): seq<byte> {
    var header := fragment.header;
    BigEndian16(header.sentTimestamp) + BigEndian16(header.echoedTimestamp) + BigEndian(header.stateId, 8)
    + BigEndian16(header.index + if header.isFinal then FINAL_FRAGMENT_BIT else 0) + fragment.body
  }

  /** `Fragment::parse`. */
  function Parse(plaintext: seq<byte>): Result<Fragment, FragmentError> {
    if |plaintext| < FRAGMENT_HEADER_BYTES then Err(HeaderTooShort)
    else
      var word := FromBigEndian16(plaintext[12..14]);
      FromBigEndianBound(plaintext[4..12]);
      EightBytes();
      var header := FragmentHeader(
        FromBigEndian16(plaintext[0..2]), FromBigEndian16(plaintext[2..4]), FromBigEndian(plaintext[4..12]),
        word % FINAL_FRAGMENT_BIT, word >= FINAL_FRAGMENT_BIT);
      var body := plaintext[FRAGMENT_HEADER_BYTES..];
      if |body| > MAX_RECEIVED_FRAGMENT_BODY_BYTES then Err(BodyTooLarge) else Ok(Fragment(header, body))
  }

  /** Parsing an encoded fragment yields it back, unless its body is beyond what a receiver takes. */
  lemma ParseInvertsEncode(fragment: Fragment)
    ensures Parse(Encode(fragment)) ==
            if |fragment.body| <= MAX_RECEIVED_FRAGMENT_BODY_BYTES then Ok(fragment) else Err(BodyTooLarge)
  {
    var header := fragment.header;
    var encoded := Encode(fragment);
    EightBytes();
    BigEndianRoundTrip(header.stateId, 8);
    assert encoded[0..2] == BigEndian16(header.sentTimestamp);
    assert encoded[2..4] == BigEndian16(header.echoedTimestamp);
    assert encoded[4..12] == BigEndian(header.stateId, 8);
    assert encoded[12..14] == BigEndian16(header.index + if header.isFinal then FINAL_FRAGMENT_BIT else 0);
    assert encoded[14..] == fragment.body;
  }

  /**
   On the wire a fragment is its two timestamps, its state number and its index with the top bit for the last
   one, each with the most significant byte first, and then its body.
   */
  lemma EncodedLayout(fragment: Fragment)
    ensures var header := fragment.header;
            Encode(fragment) == BigEndian(header.sentTimestamp, 2) + BigEndian(header.echoedTimestamp, 2)
                                + BigEndian(header.stateId, 8)
                                + BigEndian(if header.isFinal then 32_768 + header.index else header.index, 2)
                                + fragment.body
  {
    TwoBytes(fragment.header.sentTimestamp);
    TwoBytes(fragment.header.echoedTimestamp);
    TwoBytes(fragment.header.index + if fragment.header.isFinal then FINAL_FRAGMENT_BIT else 0);
    hide BigEndian, BigEndian16;
  }

  lemma TwoBytes(value: u16)
    ensures BigEndian16(value) == BigEndian(value, 2)
    ensures FromBigEndian16(BigEndian16(value)) == value
  {
    assert BigEndian(value / 256, 1) == BigEndian(value / 256 / 256, 0) + [value / 256 % 256];
  }

  /** Whatever parses was the encoding of what it parsed to: the wire form is unique. */
  lemma EncodeInvertsParse(plaintext: seq<byte>)
    requires Parse(plaintext).Ok?
    ensures Encode(Parse(plaintext).value) == plaintext
  {
    ToBigEndian(plaintext[4..12]);
    FiveParts(plaintext);
    assert BigEndian16(FromBigEndian16(plaintext[12..14])) == plaintext[12..14];
  }

  lemma FiveParts(s: seq<byte>)
    requires |s| >= 14
    ensures s == s[0..2] + s[2..4] + s[4..12] + s[12..14] + s[14..]
  {
  }

  // ---- Splitting ------------------------------------------------------------

  /** How many fragments a message takes; the empty message still takes one. */
  function ChunkCount(message: seq<byte>): (count: nat)
    ensures count >= 1
  {
    (Max(|message|, 1) + MAX_FRAGMENT_BODY_BYTES - 1) / MAX_FRAGMENT_BODY_BYTES
  }

  function ChunkStart(message: seq<byte>, index: nat): nat {
    Min(index * MAX_FRAGMENT_BODY_BYTES, |message|)
  }

  function Chunk(message: seq<byte>, index: nat): seq<byte> {
    message[ChunkStart(message, index)..ChunkStart(message, index + 1)]
  }

  /** The fragment of `message` at `index`. */
  function FragmentAt(message: seq<byte>, sent: u16, echoed: u16, stateId: u64, index: FragmentIndex): Fragment {
    Fragment(FragmentHeader(sent, echoed, stateId, index, index + 1 == ChunkCount(message)), Chunk(message, index))
  }

  /** `Fragment::split`. */
  function Split(message: seq<byte>, sent: u16, echoed: u16, stateId: u64): (r: Result<seq<Fragment>, FragmentError>)
    ensures r.Ok? <==> |message| <= FINAL_FRAGMENT_BIT * MAX_FRAGMENT_BODY_BYTES
    ensures r.Ok? ==> forall f :: f in r.value ==> |f.body| <= MAX_FRAGMENT_BODY_BYTES
  {
    if ChunkCount(message) > FINAL_FRAGMENT_BIT then Err(TooManyFragments)
    else Ok(seq(ChunkCount(message), index requires 0 <= index < ChunkCount(message) =>
                FragmentAt(message, sent, echoed, stateId, index)))
  }

  // ---- Reassembly -----------------------------------------------------------

  type Bodies = map<FragmentIndex, seq<byte>>

  /** The bodies at indices below `count`, in order; absent ones contribute nothing. */
  function Joined(fragments: Bodies, count: nat): seq<byte>
    requires count <= FINAL_FRAGMENT_BIT
  {
    if count == 0 then []
    else Joined(fragments, count - 1) + (if count - 1 in fragments then fragments[count - 1] else [])
  }

  /** Every index up to and including `last` has arrived, and nothing else has. */
  predicate Covers(fragments: Bodies, last: FragmentIndex) {
    forall i: FragmentIndex :: i in fragments <==> i <= last
  }

  datatype Accumulated = Accumulated(
    stateId: u64, bound: u64, fragments: Bodies, finalIndex: Option<FragmentIndex>, totalBytes: nat)

  /** Bytes the accumulator really holds. */
  function StoredBytes(a: Accumulated): nat {
    |Joined(a.fragments, FINAL_FRAGMENT_BIT)|
  }

  /** What every history of pushes keeps. */
  predicate Sound(a: Accumulated) {
    && (a.finalIndex.Some? ==> forall i :: i in a.fragments ==> i <= a.finalIndex.value)
    && StoredBytes(a) <= a.bound
    && StoredBytes(a) <= a.totalBytes
  }

  /** Why a fragment is refused before its body is looked at, given the final index known so far. */
  function HeaderComplaint(a: Accumulated, header: FragmentHeader): Option<FragmentError> {
    if header.stateId != a.stateId then Some(MismatchedState)
    else if a.finalIndex.Some? && header.index > a.finalIndex.value then Some(IndexAfterFinal)
    else if header.isFinal && a.finalIndex.Some? && a.finalIndex.value != header.index then Some(ConflictingFinalIndex)
    else if header.isFinal && exists i :: i in a.fragments && i > header.index then Some(IndexAfterFinal)
    else None
  }

  /** The message, once the final index is known and every index up to it has arrived. */
  ghost function Completion(a: Accumulated): Option<seq<byte>> {
    if a.finalIndex.Some? && Covers(a.fragments, a.finalIndex.value)
    then Some(Joined(a.fragments, a.finalIndex.value + 1)) else None
  }

  /** What a push does, stated over the set of indices rather than their count. */
  ghost function Pushed(a: Accumulated, fragment: Fragment)
    : (r: (Accumulated, Result<Option<seq<byte>>, FragmentError>))
  {
    var complaint := HeaderComplaint(a, fragment.header);
    if complaint.Some? then (a, Err(complaint.value))
    else
      var index := fragment.header.index;
      var marked := if fragment.header.isFinal then a.(finalIndex := Some(index)) else a;
      if index in a.fragments then
        (marked, if a.fragments[index] == fragment.body then Ok(Completion(marked)) else Err(ConflictingDuplicate))
      else if a.totalBytes + |fragment.body| > USIZE_MAX then (marked, Err(MessageTooLarge))
      else
        var counted := marked.(totalBytes := a.totalBytes + |fragment.body|);
        if counted.totalBytes > a.bound then (counted, Err(MessageTooLarge))
        else
          var stored := counted.(fragments := a.fragments[index := fragment.body]);
          (stored, Ok(Completion(stored)))
  }

  lemma {:induction false} JoinedInsert(fragments: Bodies, index: FragmentIndex, body: seq<byte>, count: nat)
    requires index !in fragments && count <= FINAL_FRAGMENT_BIT
    ensures |Joined(fragments[index := body], count)| ==
            |Joined(fragments, count)| + if index < count then |body| else 0
  {
    if count != 0 { JoinedInsert(fragments, index, body, count - 1); }
  }

  /** Every push, accepted or refused, keeps the accumulator sound: stored bytes never exceed the bound. */
  lemma PushKeepsSound(a: Accumulated, fragment: Fragment)
    requires Sound(a)
    ensures Sound(Pushed(a, fragment).0)
  {
    if fragment.header.index !in a.fragments {
      JoinedInsert(a.fragments, fragment.header.index, fragment.body, FINAL_FRAGMENT_BIT);
    }
  }

  /** The pigeonhole behind `try_complete`: with no index past `last`, the count alone tells that all arrived. */
  lemma CountDecidesCoverage(fragments: Bodies, last: FragmentIndex)
    requires forall i :: i in fragments ==> i <= last
    ensures |fragments| == last + 1 <==> Covers(fragments, last)
  {
    var all: set<FragmentIndex> := UpTo(last + 1);
    assert fragments.Keys <= all;
    if |fragments| == last + 1 {
      SubsetOfSameSize(fragments.Keys, all);
    } else {
      assert fragments.Keys != all;
    }
  }

  ghost function UpTo(count: nat): (s: set<FragmentIndex>)
    requires count <= FINAL_FRAGMENT_BIT
    ensures |s| == count
    ensures forall i: FragmentIndex :: i in s <==> i < count
  {
    if count == 0 then {} else UpTo(count - 1) + {count - 1}
  }

  lemma SubsetOfSameSize<T>(small: set<T>, big: set<T>)
    requires small <= big && |small| == |big|
    ensures small == big
  {
    assert |big - small| == |big| - |small|;
  }

  /** The reassembly buffer of one state, as the source keeps it. */
  class FragmentAccumulator {
    const stateId: u64
    const bound: u64
    var fragments: Bodies
    var finalIndex: Option<FragmentIndex>
    var totalBytes: nat

    constructor (stateId: u64, bound: u64)
      ensures Value() == Accumulated(stateId, bound, map[], None, 0) && Sound(Value())
    {
      this.stateId, this.bound := stateId, bound;
      fragments, finalIndex, totalBytes := map[], None, 0;
      new;
      NothingJoined(FINAL_FRAGMENT_BIT);
    }

    ghost function Value(): Accumulated
      reads this
    {
      Accumulated(stateId, bound, fragments, finalIndex, totalBytes)
    }

    method Push(fragment: Fragment) returns (r: Result<Option<seq<byte>>, FragmentError>)
      requires Sound(Value())
      modifies this
      ensures (Value(), r) == Pushed(old(Value()), fragment)
      ensures Sound(Value())
      ensures r != Err(MissingFragment)
    {
      PushKeepsSound(Value(), fragment);
      var index := fragment.header.index;
      if fragment.header.stateId != stateId {
        return Err(MismatchedState);
      }
      if finalIndex.Some? && index > finalIndex.value {
        return Err(IndexAfterFinal);
      }
      if fragment.header.isFinal {
        if finalIndex.Some? && finalIndex.value != index {
          return Err(ConflictingFinalIndex);
        }
        if exists i :: i in fragments && i > index {
          return Err(IndexAfterFinal);
        }
        finalIndex := Some(index);
      }
      if index in fragments {
        if fragments[index] == fragment.body {
          r := TryComplete();
        } else {
          r := Err(ConflictingDuplicate);
        }
        return;
      }
      if totalBytes + |fragment.body| > USIZE_MAX {
        return Err(MessageTooLarge);
      }
      totalBytes := totalBytes + |fragment.body|;
      if totalBytes > bound {
        return Err(MessageTooLarge);
      }
      fragments := fragments[index := fragment.body];
      r := TryComplete();
    }

    /** Counts the fragments, then joins them; the lookup inside the loop cannot miss. */
    method TryComplete() returns (r: Result<Option<seq<byte>>, FragmentError>)
      requires finalIndex.Some? ==> forall i :: i in fragments ==> i <= finalIndex.value
      ensures r == Ok(Completion(Value()))
    {
      if finalIndex.None? { return Ok(None); }
      var last: nat := finalIndex.value;
      CountDecidesCoverage(fragments, last);
      if |fragments| != last + 1 { return Ok(None); }
      var message: seq<byte> := [];
      for index := 0 to last + 1
        invariant message == Joined(fragments, index)
      {
        if index !in fragments { return Err(MissingFragment); }
        message := message + fragments[index];
      }
      return Ok(Some(message));
    }
  }

  lemma {:induction false} NothingJoined(count: nat)
    requires count <= FINAL_FRAGMENT_BIT
    ensures Joined(map[], count) == []
  {
    if count != 0 { NothingJoined(count - 1); }
  }

  // ---- What is refused ------------------------------------------------------

  /** The header goes against what is already known of the message. */
  predicate Contradicts(a: Accumulated, header: FragmentHeader) {
    || header.stateId != a.stateId
    || (a.finalIndex.Some? && (header.index > a.finalIndex.value
                               || (header.isFinal && header.index < a.finalIndex.value)))
    || (header.isFinal && a.finalIndex.None? && exists i :: i in a.fragments && i > header.index)
  }

  /**
   Why a fragment is refused, and no other reason: it is of another message, it lies beyond the end, it puts the
   end elsewhere, it differs from the fragment held at its index, or it takes the message over its limit.
   */
  lemma RefusedIff(a: Accumulated, f: Fragment)
    requires Sound(a)
    ensures var r := Pushed(a, f).1;
            var (ours, index) := (f.header.stateId == a.stateId, f.header.index);
            && (r == Err(MismatchedState) <==> !ours)
            && (r == Err(ConflictingFinalIndex) <==> ours && f.header.isFinal && a.finalIndex.Some?
                                                     && index < a.finalIndex.value)
            && (r == Err(IndexAfterFinal) <==> ours && if a.finalIndex.Some? then index > a.finalIndex.value
                                                       else f.header.isFinal && exists i ::
                                                         i in a.fragments && i > index)
            && (r == Err(ConflictingDuplicate) <==> !Contradicts(a, f.header) && index in a.fragments
                                                    && a.fragments[index] != f.body)
            && (r == Err(MessageTooLarge) <==> !Contradicts(a, f.header) && index !in a.fragments
                                               && a.totalBytes + |f.body| > a.bound)
            && (r.Err? ==> r.error in {MismatchedState, ConflictingFinalIndex, IndexAfterFinal, ConflictingDuplicate,
                                       MessageTooLarge})
  {
    hide Completion, StoredBytes;
  }

  // ---- Any order, any repetition -------------------------------------------

  /** `f` is one of the fragments a message is sent as (header timestamps may differ between sendings). */
  predicate FragmentOf(f: Fragment, message: seq<byte>, stateId: u64) {
    f.header.index < ChunkCount(message)
    && f == FragmentAt(message, f.header.sentTimestamp, f.header.echoedTimestamp, stateId, f.header.index)
  }

  /** The accumulator after pushing `received` in order into a new one. */
  ghost function After(stateId: u64, bound: u64, received: seq<Fragment>): Accumulated {
    if received == [] then Accumulated(stateId, bound, map[], None, 0)
    else Pushed(After(stateId, bound, received[..|received| - 1]), received[|received| - 1]).0
  }

  predicate Seen(received: seq<Fragment>, index: FragmentIndex) {
    exists k :: 0 <= k < |received| && received[k].header.index == index
  }

  /** Every index of the message occurs among the received fragments. */
  predicate AllSeen(received: seq<Fragment>, message: seq<byte>) {
    forall index: FragmentIndex :: index < ChunkCount(message) ==> Seen(received, index)
  }

  /** The bodies held are chunks of the message at their own indices. */
  predicate ChunksOf(fragments: Bodies, message: seq<byte>) {
    forall i: FragmentIndex :: i in fragments ==> i < ChunkCount(message) && fragments[i] == Chunk(message, i)
  }

  /** What the accumulator holds after part of a message: exactly the chunks seen so far. */
  ghost predicate Holds(a: Accumulated, received: seq<Fragment>, message: seq<byte>)
    requires ChunkCount(message) <= FINAL_FRAGMENT_BIT
  {
    var last := ChunkCount(message) - 1;
    && (forall i: FragmentIndex :: i in a.fragments <==> Seen(received, i))
    && ChunksOf(a.fragments, message)
    && a.finalIndex == (if Seen(received, last) then Some(last) else None)
    && a.totalBytes == StoredBytes(a)
  }

  lemma {:induction false} ChunksFitTheMessage(fragments: Bodies, message: seq<byte>, count: nat)
    requires ChunksOf(fragments, message) && count <= FINAL_FRAGMENT_BIT
    ensures |Joined(fragments, count)| <= ChunkStart(message, count)
  {
    if count != 0 { ChunksFitTheMessage(fragments, message, count - 1); }
  }

  lemma {:induction false} ChunksJoinToTheMessage(fragments: Bodies, message: seq<byte>, count: nat)
    requires ChunksOf(fragments, message) && count <= ChunkCount(message) && count <= FINAL_FRAGMENT_BIT
    requires forall i: FragmentIndex :: i < count ==> i in fragments
    ensures Joined(fragments, count) == message[..ChunkStart(message, count)]
  {
    if count != 0 {
      ChunksJoinToTheMessage(fragments, message, count - 1);
      JoinPrefix(message, ChunkStart(message, count - 1), ChunkStart(message, count));
    }
  }

  lemma JoinPrefix(message: seq<byte>, lo: nat, hi: nat)
    requires lo <= hi <= |message|
    ensures message[..lo] + message[lo..hi] == message[..hi]
  {
  }

  /** After any arrivals of one message, the accumulator holds exactly the chunks that arrived. */
  lemma {:induction false} AfterHolds(stateId: u64, bound: u64, received: seq<Fragment>, message: seq<byte>)
    requires |message| <= bound && ChunkCount(message) <= FINAL_FRAGMENT_BIT
    requires forall f :: f in received ==> FragmentOf(f, message, stateId)
    ensures var a := After(stateId, bound, received); a.stateId == stateId && a.bound == bound
    ensures Holds(After(stateId, bound, received), received, message)
  {
    if received == [] {
      NothingJoined(FINAL_FRAGMENT_BIT);
    } else {
      var n := |received| - 1;
      AfterHolds(stateId, bound, received[..n], message);
      PushHolds(After(stateId, bound, received[..n]), received, message);
    }
  }

  lemma SeenSoFar(received: seq<Fragment>)
    requires received != []
    ensures forall i: FragmentIndex :: Seen(received, i) <==>
        Seen(received[..|received| - 1], i) || received[|received| - 1].header.index == i
  {
    var n := |received| - 1;
    forall i: FragmentIndex
      ensures Seen(received, i) <==> Seen(received[..n], i) || received[n].header.index == i
    {
      if Seen(received[..n], i) {
        var k :| 0 <= k < n && received[..n][k].header.index == i;
        assert received[k].header.index == i;
      }
    }
  }

  lemma PushHolds(a: Accumulated, received: seq<Fragment>, message: seq<byte>)
    requires received != [] && FragmentOf(received[|received| - 1], message, a.stateId)
    requires |message| <= a.bound && ChunkCount(message) <= FINAL_FRAGMENT_BIT
    requires Holds(a, received[..|received| - 1], message)
    ensures var next := Pushed(a, received[|received| - 1]);
            && next.0.stateId == a.stateId && next.0.bound == a.bound && Holds(next.0, received, message)
            && next.1 == Ok(if AllSeen(received, message) then Some(message) else None)
  {
    hide Pushed, ChunksOf, Compatible, IsWhole, AllSeen, StoredBytes, Holds, FragmentAt, Seen;
    var f := received[|received| - 1];
    HoldsIsCompatible(a, received[..|received| - 1], message);
    PushKeepsCompatible(a, f, message);
    PushAgreeing(a, f, message);
    HoldsMore(a, Pushed(a, f).0, received, message);
    WholeIsAllSeen(Pushed(a, f).0, received, message);
  }

  lemma HoldsMore(a: Accumulated, next: Accumulated, received: seq<Fragment>, message: seq<byte>)
    requires received != [] && FragmentOf(received[|received| - 1], message, a.stateId)
    requires ChunkCount(message) <= FINAL_FRAGMENT_BIT && Holds(a, received[..|received| - 1], message)
    requires Agrees(next, message) && next.fragments.Keys == a.fragments.Keys + {received[|received| - 1].header.index}
    requires next.finalIndex.Some? <==> a.finalIndex.Some? || received[|received| - 1].header.isFinal
    requires next.totalBytes - StoredBytes(next) == a.totalBytes - StoredBytes(a)
    ensures Holds(next, received, message)
  {
    hide Seen, ChunksOf, StoredBytes, Chunk;
    SeenSoFar(received);
    assert forall i: FragmentIndex :: i in next.fragments <==> i in next.fragments.Keys;
  }

  lemma HoldsIsCompatible(a: Accumulated, received: seq<Fragment>, message: seq<byte>)
    requires ChunkCount(message) <= FINAL_FRAGMENT_BIT && |message| <= a.bound && Holds(a, received, message)
    ensures Compatible(a, message) && Agrees(a, message)
  {
    hide ChunksOf, StoredBytes, Seen;
  }

  lemma WholeIsAllSeen(a: Accumulated, received: seq<Fragment>, message: seq<byte>)
    requires ChunkCount(message) <= FINAL_FRAGMENT_BIT && Holds(a, received, message)
    ensures IsWhole(a, message) <==> AllSeen(received, message)
  {
    hide ChunksOf, StoredBytes, Seen;
    var last: FragmentIndex := ChunkCount(message) - 1;
    assert AllSeen(received, message) ==> Seen(received, last);
  }

  // ---- A message on top of what is already held -----------------------------

  /** What is held are chunks of the message, and the final index is its own, if it is known. */
  predicate Agrees(a: Accumulated, message: seq<byte>) {
    && ChunksOf(a.fragments, message)
    && (a.finalIndex.Some? ==> a.finalIndex.value + 1 == ChunkCount(message))
  }

  predicate HoldsAll(a: Accumulated, message: seq<byte>) {
    forall i: FragmentIndex :: i < ChunkCount(message) ==> i in a.fragments
  }

  /** Nothing held contradicts the message, and what is missing of it still fits. */
  predicate Compatible(a: Accumulated, message: seq<byte>) {
    Agrees(a, message) && (HoldsAll(a, message) || a.totalBytes + |message| - StoredBytes(a) <= a.bound)
  }

  /** Every chunk is held and it is known that there are no more. */
  predicate IsWhole(a: Accumulated, message: seq<byte>) {
    HoldsAll(a, message) && a.finalIndex.Some?
  }

  /** The body is held already or the byte count has room for it. */
  predicate HasRoomFor(a: Accumulated, index: FragmentIndex, body: seq<byte>) {
    index in a.fragments || a.totalBytes + |body| <= a.bound
  }

  lemma WholeCompletes(a: Accumulated, message: seq<byte>)
    requires ChunkCount(message) <= FINAL_FRAGMENT_BIT && Agrees(a, message)
    ensures Completion(a) == if IsWhole(a, message) then Some(message) else None
  {
    var last := ChunkCount(message) - 1;
    if IsWhole(a, message) {
      ChunksJoinToTheMessage(a.fragments, message, last + 1);
      assert message[..ChunkStart(message, last + 1)] == message;
    }
  }

  /** What the next fragment of the message makes of an accumulator that agrees with it. */
  lemma PushAgreeing(a: Accumulated, f: Fragment, message: seq<byte>)
    requires ChunkCount(message) <= FINAL_FRAGMENT_BIT
    requires FragmentOf(f, message, a.stateId) && Agrees(a, message)
    ensures var (next, r) := Pushed(a, f);
            if !HasRoomFor(a, f.header.index, f.body) then r == Err(MessageTooLarge)
            else
              && next.stateId == a.stateId && next.bound == a.bound && Agrees(next, message)
              && next.fragments.Keys == a.fragments.Keys + {f.header.index}
              && (next.finalIndex.Some? <==> a.finalIndex.Some? || f.header.isFinal)
              && next.totalBytes - StoredBytes(next) == a.totalBytes - StoredBytes(a)
              && (f.header.index !in a.fragments ==> next.totalBytes == a.totalBytes + |f.body|)
              && r == Ok(if IsWhole(next, message) then Some(message) else None)
  {
    assert HeaderComplaint(a, f.header) == None;
    if HasRoomFor(a, f.header.index, f.body) {
      var next := Pushed(a, f).0;
      if f.header.index !in a.fragments {
        JoinedInsert(a.fragments, f.header.index, f.body, FINAL_FRAGMENT_BIT);
      }
      WholeCompletes(next, message);
    }
  }

  /** What is held and a chunk that is not are together no longer than the message. */
  lemma MissingIsRest(a: Accumulated, message: seq<byte>, index: FragmentIndex)
    requires Agrees(a, message) && index < ChunkCount(message) && index !in a.fragments
    ensures StoredBytes(a) + |Chunk(message, index)| <= |message|
  {
    var stored := a.fragments[index := Chunk(message, index)];
    ChunksFitTheMessage(stored, message, FINAL_FRAGMENT_BIT);
    JoinedInsert(a.fragments, index, Chunk(message, index), FINAL_FRAGMENT_BIT);
  }

  /** Once all chunks are held, what is held is as long as the message. */
  lemma AllIsWholeLength(a: Accumulated, message: seq<byte>)
    requires ChunkCount(message) <= FINAL_FRAGMENT_BIT && Agrees(a, message) && HoldsAll(a, message)
    ensures StoredBytes(a) == |message|
  {
    var n := ChunkCount(message);
    ChunksJoinToTheMessage(a.fragments, message, n);
    ChunksFitTheMessage(a.fragments, message, FINAL_FRAGMENT_BIT);
    JoinedGrows(a.fragments, n, FINAL_FRAGMENT_BIT);
  }

  lemma {:induction false} JoinedGrows(fragments: Bodies, count: nat, more: nat)
    requires count <= more <= FINAL_FRAGMENT_BIT
    ensures |Joined(fragments, count)| <= |Joined(fragments, more)|
    decreases more
  {
    if count < more { JoinedGrows(fragments, count, more - 1); }
  }

  /** Every fragment of the message fits a compatible accumulator and leaves it compatible. */
  lemma PushKeepsCompatible(a: Accumulated, f: Fragment, message: seq<byte>)
    requires ChunkCount(message) <= FINAL_FRAGMENT_BIT
    requires FragmentOf(f, message, a.stateId) && Compatible(a, message)
    ensures HasRoomFor(a, f.header.index, f.body) && Compatible(Pushed(a, f).0, message)
  {
    if f.header.index !in a.fragments { MissingIsRest(a, message, f.header.index); }
    PushAgreeing(a, f, message);
    hide Pushed, Agrees, StoredBytes;
    var next := Pushed(a, f).0;
    if HoldsAll(a, message) {
      forall i: FragmentIndex | i < ChunkCount(message) ensures i in next.fragments { assert i in a.fragments; }
    }
  }

  /** A fragment that contradicts what is held: the one to look at first when a message does not agree. */
  lemma ClashingFragment(a: Accumulated, message: seq<byte>) returns (index: FragmentIndex)
    requires ChunkCount(message) <= FINAL_FRAGMENT_BIT && !Agrees(a, message)
    ensures index < ChunkCount(message)
    ensures forall f :: FragmentOf(f, message, a.stateId) && f.header.index == index ==> Pushed(a, f).1.Err?
  {
    index := ChunkCount(message) - 1;
    if i: FragmentIndex :| i in a.fragments && i < ChunkCount(message) && a.fragments[i] != Chunk(message, i) {
      index := i;
    }
  }

  // ---- What a refused fragment leaves behind --------------------------------

  /** The fragment fixes the final index, which was not known. */
  predicate FixesEnd(a: Accumulated, f: Fragment) {
    HeaderComplaint(a, f.header).None? && f.header.isFinal && a.finalIndex.None?
  }

  /** The fragment is charged for, whether or not it is stored. */
  predicate IsCharged(a: Accumulated, f: Fragment) {
    && HeaderComplaint(a, f.header).None? && f.header.index !in a.fragments
    && f.body != [] && a.totalBytes + |f.body| <= USIZE_MAX
  }

  /**
   A refused fragment changes the accumulator exactly when it fixes its end or is charged for a body
   that is too large.
   */
  lemma RefusedChangesIff(a: Accumulated, f: Fragment)
    requires Pushed(a, f).1.Err?
    ensures Pushed(a, f).0 != a <==> FixesEnd(a, f) || IsCharged(a, f)
    ensures Pushed(a, f).0.fragments == a.fragments
  {
  }

  /**
   A refused fragment finishes an unfinished message exactly when it fixes the end at an index up
   to which, and no further, everything is held. The message is then what is held, although the
   fragment that ended it was not taken, and the next repetition of any part of it hands it on.
   */
  lemma RefusedFinishesIff(a: Accumulated, f: Fragment)
    requires Pushed(a, f).1.Err? && Completion(a).None?
    ensures Completion(Pushed(a, f).0).Some? <==> FixesEnd(a, f) && Covers(a.fragments, f.header.index)
    ensures Completion(Pushed(a, f).0).Some? ==>
              Completion(Pushed(a, f).0).value == Joined(a.fragments, f.header.index + 1)
  {
    hide Joined;
  }

  /** A repetition of any part of a message that is complete already hands it on. */
  lemma RepetitionHandsOn(a: Accumulated, f: Fragment)
    requires Completion(a).Some? && f.header.stateId == a.stateId && !f.header.isFinal
    requires f.header.index in a.fragments && a.fragments[f.header.index] == f.body
    ensures Pushed(a, f).1 == Ok(Completion(a))
  {
    hide Joined;
  }

  /** Such a case: a final fragment contradicts the first one of a longer message, which then passes for the whole. */
  lemma RefusedFinalTruncates(a: Accumulated, first: Fragment, other: Fragment)
    requires a.fragments == map[] && a.finalIndex == None && a.totalBytes + |first.body| <= a.bound
    requires first.header.stateId == other.header.stateId == a.stateId && first.header.index == other.header.index == 0
    requires !first.header.isFinal && other.header.isFinal && first.body != other.body
    ensures var (one, r1) := Pushed(a, first);
            var (two, r2) := Pushed(one, other);
            r1 == Ok(None) && r2 == Err(ConflictingDuplicate) && Pushed(two, first).1 == Ok(Some(first.body))
  {
    var one := a.(fragments := map[0 := first.body], totalBytes := a.totalBytes + |first.body|);
    assert Pushed(a, first) == (one, Ok(None));
    assert Pushed(one, other).1 == Err(ConflictingDuplicate) && Covers(one.fragments, 0);
    RefusedFinishesIff(one, other);
    OneJoined(one.fragments);
    RepetitionHandsOn(Pushed(one, other).0, first);
  }

  lemma OneJoined(fragments: Bodies)
    requires 0 in fragments
    ensures Joined(fragments, 1) == fragments[0]
  {
    assert Joined(fragments, 1) == Joined(fragments, 0) + fragments[0];
  }

  function ParseAll(arrived: seq<seq<byte>>): seq<Fragment>
    requires forall p :: p in arrived ==> Parse(p).Ok?
  {
    seq(|arrived|, k requires 0 <= k < |arrived| => Parse(arrived[k]).value)
  }

  /**
   Fragments of one message that arrive over the wire in any order, some of them
   repeatedly: the last push yields nothing until every index has been seen, and
   from then on exactly the message.
   */
  lemma ReassemblesInAnyOrder(message: seq<byte>, stateId: u64, fragments: seq<Fragment>, arrived: seq<seq<byte>>,
                              bound: u64)
    requires |message| <= bound && ChunkCount(message) <= FINAL_FRAGMENT_BIT
    requires forall f :: f in fragments ==> FragmentOf(f, message, stateId)
    requires arrived != [] && forall p :: p in arrived ==> exists f :: f in fragments && p == Encode(f)
    ensures forall p :: p in arrived ==> Parse(p).Ok?
    ensures var received := ParseAll(arrived);
            var n := |received| - 1;
            Pushed(After(stateId, bound, received[..n]), received[n]).1
              == Ok(if AllSeen(received, message) then Some(message) else None)
  {
    forall p | p in arrived ensures Parse(p).Ok? && FragmentOf(Parse(p).value, message, stateId) {
      var f :| f in fragments && p == Encode(f);
      ParseInvertsEncode(f);
    }
    var received := ParseAll(arrived);
    forall k | 0 <= k < |received| ensures FragmentOf(received[k], message, stateId) {
      assert arrived[k] in arrived;
    }
    var n := |received| - 1;
    AfterHolds(stateId, bound, received[..n], message);
    PushHolds(After(stateId, bound, received[..n]), received, message);
  }

  /** What `Split` produces are the fragments of the message, one for each index. */
  lemma SplitGivesTheFragments(message: seq<byte>, sent: u16, echoed: u16, stateId: u64)
    requires Split(message, sent, echoed, stateId).Ok?
    ensures var fragments := Split(message, sent, echoed, stateId).value;
            && AllSeen(fragments, message)
            && (forall k :: 0 <= k < |fragments| ==>
                FragmentOf(fragments[k], message, stateId) && fragments[k].header.index == k)
            && (forall k :: 0 <= k < |fragments| ==> (fragments[k].header.isFinal <==> k == |fragments| - 1))
  {
    var fragments := Split(message, sent, echoed, stateId).value;
    forall index: FragmentIndex | index < ChunkCount(message) ensures Seen(fragments, index) {
      assert fragments[index].header.index == index;
    }
  }

  /** Every fragment but the last carries 1,214 bytes, in order, the last one what is left; an empty message is one. */
  lemma SplitCuts(message: seq<byte>, sent: u16, echoed: u16, stateId: u64)
    ensures Split(message, sent, echoed, stateId).Err? <==> |message| > 32_768 * 1214
    ensures Split(message, sent, echoed, stateId).Ok? ==>
              var fragments := Split(message, sent, echoed, stateId).value;
              var last := |fragments| - 1;
              && last >= 0 && 1214 * last <= |message| <= 1214 * (last + 1) && (last > 0 ==> 1214 * last < |message|)
              && (forall k :: 0 <= k < last ==> fragments[k].body == message[1214 * k..1214 * (k + 1)])
              && fragments[last].body == message[1214 * last..]
              && forall k :: 0 <= k <= last ==>
                   fragments[k].header.sentTimestamp == sent && fragments[k].header.echoedTimestamp == echoed
                   && fragments[k].header.stateId == stateId
  {
  }
}
