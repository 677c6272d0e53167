/**
 What becomes of a packet before its update reaches the receive rule: opening,
 replay filter, timestamps, and one reassembly per state number.
 */
module Ingest {
  import opened Prelude
  import opened Wire
  import opened Fragments
  import opened Replay
  import opened Channel

  const MAXIMUM_REASSEMBLED_BYTES := 16 * 1024 * 1024
  const MAXIMUM_ACTIVE_ASSEMBLIES := 64
  const TIMESTAMP_HEADER_BYTES := 4
  const MINIMUM_FRAGMENT_PLAINTEXT_BYTES := 14

  datatype Refusal =
    | NotOpened(open: OpenError) | ReplayDetected | Framing(fragment: FragmentError)
    | TooManyActiveAssemblies | Undecodable

  /** What an authenticated packet reports; the update is there when the packet completes one. */
  datatype Receipt = Receipt(sent: u16, echoed: u16, update: Option<StateUpdate>)

  // Decompression and decoding of a reassembled message.
  type Decoder = seq<byte> -> Option<StateUpdate>

  datatype Transport = Transport(
    accepted: Counters, highest: Option<u64>, assemblies: map<u64, Accumulated>, peerTimestamp: Option<u16>)

  function Empty(id: u64): Accumulated {
    Accumulated(id, MAXIMUM_REASSEMBLED_BYTES, map[], None, 0)
  }

  function Assembly(t: Transport, id: u64): Accumulated {
    if id in t.assemblies then t.assemblies[id] else Empty(id)
  }

  /** What a push leaves: the assembly, or, once it is complete, the decoded message in its place. */
  function Concluded(t: Transport, header: FragmentHeader, pushed: Accumulated,
                     r: Result<Option<seq<byte>>, FragmentError>,
                     decode: Decoder): (Transport, Result<Receipt, Refusal>)
  {
    match r
    case Err(error) => (t.(assemblies := t.assemblies[header.stateId := pushed]), Err(Framing(error)))
    case Ok(None) =>
      (t.(assemblies := t.assemblies[header.stateId := pushed]),
       Ok(Receipt(header.sentTimestamp, header.echoedTimestamp, None)))
    case Ok(Some(message)) =>
      (t.(assemblies := t.assemblies - {header.stateId}),
       match decode(message)
       case None => Err(Undecodable)
       case Some(update) => Ok(Receipt(header.sentTimestamp, header.echoedTimestamp, Some(update))))
  }

  /** A fragment goes to the assembly of its state number, which ends with the message it completes. */
  ghost function Assemble(t: Transport, fragment: Fragment, decode: Decoder): (Transport, Result<Receipt, Refusal>) {
    var id := fragment.header.stateId;
    if id !in t.assemblies && |t.assemblies| >= MAXIMUM_ACTIVE_ASSEMBLIES then (t, Err(TooManyActiveAssemblies))
    else
      var (pushed, r) := Pushed(Assembly(t, id), fragment);
      Concluded(t, fragment.header, pushed, r, decode)
  }

  /** The plaintext of a packet that is authentic and new. */
  ghost function TakePlaintext(t: Transport, plaintext: seq<byte>, decode: Decoder)
    : (Transport, Result<Receipt, Refusal>)
  {
    if |plaintext| < TIMESTAMP_HEADER_BYTES then (t, Err(Framing(HeaderTooShort)))
    else
      var sent, echoed := FromBigEndian16(plaintext[0..2]), FromBigEndian16(plaintext[2..4]);
      var stamped := t.(peerTimestamp := Some(sent));
      if |plaintext| < MINIMUM_FRAGMENT_PLAINTEXT_BYTES then (stamped, Ok(Receipt(sent, echoed, None)))
      else
        match Parse(plaintext)
        case Err(error) => (stamped, Err(Framing(error)))
        case Ok(fragment) => Assemble(stamped, fragment, decode)
  }

  /** The replay filter after accepting a counter. */
  function Noted(t: Transport, counter: u64): Transport {
    t.(accepted := t.accepted + {counter},
       highest := if t.highest.None? || counter > t.highest.value then Some(counter) else t.highest)
  }

  /** `ingest_packet` up to the complete update. */
  ghost function Take(t: Transport, packet: Packet, decode: Decoder): (Transport, Result<Receipt, Refusal>) {
    match Opened(Client, packet)
    case Err(error) => (t, Err(NotOpened(error)))
    case Ok((counter, plaintext)) =>
      if !Acceptable(t.accepted, t.highest, counter) then (t, Err(ReplayDetected))
      else TakePlaintext(Noted(t, counter), plaintext, decode)
  }

  // ---- One packet -----------------------------------------------------------

  /**
   A packet is turned away whole exactly when it does not open or its counter has been seen or is too old;
   otherwise the counter is noted, whatever the packet turns out to hold.
   */
  lemma TakeNotesIff(t: Transport, packet: Packet, decode: Decoder)
    ensures var (next, r) := Take(t, packet, decode);
            var plain := Opened(Client, packet);
            if plain.Err? then next == t && r == Err(NotOpened(plain.error))
            else
              var counter := plain.value.0;
              var late := t.highest.Some? && (counter as int) + 128 <= t.highest.value;
              if late || (counter in t.accepted && t.highest.Some? && counter <= t.highest.value)
              then next == t && r == Err(ReplayDetected)
              else
                && next.accepted == t.accepted + {counter}
                && r != Err(ReplayDetected) && !(r.Err? && r.error.NotOpened?)
                && next.highest == Some(if t.highest.Some? then Max(t.highest.value, counter) else counter)
  {
    hide Pushed, Parse;
  }

  /**
   An authentic new packet shorter than a fragment is not lost: its first four bytes are the peer's stamp and
   the one it echoes, the stamp is kept, and no reassembly is touched. Fewer than four bytes are refused.
   */
  lemma BarePacketIsHeard(t: Transport, counter: Counter, sent: u16, echoed: u16, rest: seq<byte>, decode: Decoder)
    requires Acceptable(t.accepted, t.highest, counter) && |rest| < 10
    ensures var plaintext := BigEndian(sent, 2) + BigEndian(echoed, 2) + rest;
            var (next, r) := Take(t, Sealed(EncodeWord(ServerToClient, counter), plaintext), decode);
            && r == Ok(Receipt(sent, echoed, None))
            && next.peerTimestamp == Some(sent) && next.assemblies == t.assemblies && counter in next.accepted
    ensures forall cut :: 0 <= cut < 4 ==>
              var plaintext := (BigEndian(sent, 2) + BigEndian(echoed, 2))[..cut];
              var (next, r) := Take(t, Sealed(EncodeWord(ServerToClient, counter), plaintext), decode);
              r == Err(Framing(HeaderTooShort)) && next.assemblies == t.assemblies
              && next.peerTimestamp == t.peerTimestamp && counter in next.accepted
  {
    WordRoundTrip(ServerToClient, counter);
    TwoBytes(sent);
    TwoBytes(echoed);
    var plaintext := BigEndian(sent, 2) + BigEndian(echoed, 2) + rest;
    assert plaintext[0..2] == BigEndian(sent, 2) && plaintext[2..4] == BigEndian(echoed, 2);
    hide BigEndian, EncodeWord, Parse, Pushed;
  }

  /** A new fragment of a number not yet held is refused for want of room exactly when 64 others are held. */
  lemma NoRoomIff(t: Transport, counter: Counter, fragment: Fragment, decode: Decoder)
    requires Acceptable(t.accepted, t.highest, counter) && |fragment.body| <= 1300
    ensures Take(t, Sealed(EncodeWord(ServerToClient, counter), Encode(fragment)), decode).1
              == Err(TooManyActiveAssemblies)
            <==> fragment.header.stateId !in t.assemblies && |t.assemblies| >= 64
  {
    WordRoundTrip(ServerToClient, counter);
    ParseInvertsEncode(fragment);
    assert |Encode(fragment)| >= 14;
    hide Encode, Parse, Pushed, EncodeWord;
  }

  // ---- Bounds ---------------------------------------------------------------

  /** At most 64 reassemblies of at most 16 MiB each are ever held. */
  predicate Bounded(assemblies: map<u64, Accumulated>) {
    && |assemblies| <= MAXIMUM_ACTIVE_ASSEMBLIES
    && forall id :: id in assemblies ==>
         assemblies[id].stateId == id && assemblies[id].bound == MAXIMUM_REASSEMBLED_BYTES && Sound(assemblies[id])
  }

  lemma EmptyIsSound(id: u64)
    ensures Sound(Empty(id))
  {
    NothingJoined(FINAL_FRAGMENT_BIT);
  }

  lemma PushedKeepsIdentity(a: Accumulated, fragment: Fragment)
    ensures Pushed(a, fragment).0.stateId == a.stateId && Pushed(a, fragment).0.bound == a.bound
  {
  }

  lemma HoldingKeepsBounded(assemblies: map<u64, Accumulated>, id: u64, a: Accumulated)
    requires Bounded(assemblies) && (id in assemblies || |assemblies| < MAXIMUM_ACTIVE_ASSEMBLIES)
    requires a.stateId == id && a.bound == MAXIMUM_REASSEMBLED_BYTES && Sound(a)
    ensures Bounded(assemblies[id := a])
  {
    hide Sound;
    assert assemblies[id := a].Keys == assemblies.Keys + {id};
  }

  lemma EndingKeepsBounded(assemblies: map<u64, Accumulated>, id: u64)
    requires Bounded(assemblies)
    ensures Bounded(assemblies - {id})
  {
    hide Sound;
    assert (assemblies - {id}).Keys == assemblies.Keys - {id};
  }

  lemma AssemblyIsSound(t: Transport, id: u64)
    requires Bounded(t.assemblies)
    ensures var a := Assembly(t, id); Sound(a) && a.stateId == id && a.bound == MAXIMUM_REASSEMBLED_BYTES
  {
    EmptyIsSound(id);
    hide Sound;
  }

  lemma AssembleKeepsBounded(t: Transport, fragment: Fragment, decode: Decoder)
    requires Bounded(t.assemblies)
    ensures Bounded(Assemble(t, fragment, decode).0.assemblies)
  {
    hide Pushed, Sound, Bounded, Assembly;
    var id := fragment.header.stateId;
    AssemblyIsSound(t, id);
    PushKeepsSound(Assembly(t, id), fragment);
    PushedKeepsIdentity(Assembly(t, id), fragment);
    if id in t.assemblies || |t.assemblies| < MAXIMUM_ACTIVE_ASSEMBLIES {
      HoldingKeepsBounded(t.assemblies, id, Pushed(Assembly(t, id), fragment).0);
      EndingKeepsBounded(t.assemblies, id);
    }
  }

  /** Whatever packets arrive, forged, replayed or conflicting, reassembly memory stays bounded. */
  lemma TakeKeepsBounded(t: Transport, packet: Packet, decode: Decoder)
    requires Bounded(t.assemblies)
    ensures Bounded(Take(t, packet, decode).0.assemblies)
  {
    hide Assemble, Bounded, Opened, Acceptable;
    match Opened(Client, packet) {
      case Err(_) =>
      case Ok((counter, plaintext)) =>
        if |plaintext| >= MINIMUM_FRAGMENT_PLAINTEXT_BYTES && Parse(plaintext).Ok? {
          var stamped := Noted(t, counter).(peerTimestamp := Some(FromBigEndian16(plaintext[0..2])));
          AssembleKeepsBounded(stamped, Parse(plaintext).value, decode);
        }
    }
  }

  // ---- One message over the wire --------------------------------------------

  /** A message and the state number it is sent under. */
  datatype Content = Content(message: seq<byte>, stateId: u64)

  /** A message as the server seals it: one packet a fragment, with consecutive counters from `first`. */
  datatype Sealing = Sealing(content: Content, sent: u16, echoed: u16, first: nat)

  predicate CanSend(c: Content) {
    ChunkCount(c.message) <= FINAL_FRAGMENT_BIT && |c.message| <= MAXIMUM_REASSEMBLED_BYTES
  }

  predicate CanSeal(s: Sealing) {
    CanSend(s.content) && s.first + ChunkCount(s.content.message) <= MAX_COUNTER + 1
  }

  function FragmentOfSealing(s: Sealing, k: nat): Fragment
    requires CanSeal(s) && k < ChunkCount(s.content.message)
  {
    FragmentAt(s.content.message, s.sent, s.echoed, s.content.stateId, k)
  }

  function PacketOfSealing(s: Sealing, k: nat): Packet
    requires CanSeal(s) && k < ChunkCount(s.content.message)
  {
    Sealed(EncodeWord(ServerToClient, s.first + k), Encode(FragmentOfSealing(s, k)))
  }

  lemma OursOpens(s: Sealing, k: nat)
    requires CanSeal(s) && k < ChunkCount(s.content.message)
    ensures Opened(Client, PacketOfSealing(s, k)) == Ok((s.first + k, Encode(FragmentOfSealing(s, k))))
    ensures Parse(Encode(FragmentOfSealing(s, k))) == Ok(FragmentOfSealing(s, k))
    ensures |Encode(FragmentOfSealing(s, k))| >= MINIMUM_FRAGMENT_PLAINTEXT_BYTES
  {
    WordRoundTrip(ServerToClient, s.first + k);
    ParseInvertsEncode(FragmentOfSealing(s, k));
  }

  lemma StampIsSent(fragment: Fragment)
    ensures |Encode(fragment)| >= 2 && FromBigEndian16(Encode(fragment)[0..2]) == fragment.header.sentTimestamp
  {
    assert Encode(fragment)[0..2] == BigEndian16(fragment.header.sentTimestamp);
  }

  /** The transport when a new packet of the sealing reaches its assembly. */
  function Reached(s: Sealing, t: Transport, k: nat): Transport
    requires CanSeal(s) && k < ChunkCount(s.content.message)
  {
    Noted(t, s.first + k).(peerTimestamp := Some(s.sent))
  }

  lemma OursIsAssembled(s: Sealing, t: Transport, k: nat, decode: Decoder)
    requires CanSeal(s) && k < ChunkCount(s.content.message)
    ensures Take(t, PacketOfSealing(s, k), decode) ==
            if Acceptable(t.accepted, t.highest, s.first + k)
            then Assemble(Reached(s, t, k), FragmentOfSealing(s, k), decode) else (t, Err(ReplayDetected))
  {
    OursOpens(s, k);
    StampIsSent(FragmentOfSealing(s, k));
    hide Assemble, Encode, Parse, Opened, PacketOfSealing, ChunkCount;
  }

  /** Traffic of any kind without a fragment under the state number. */
  predicate Foreign(id: u64, packet: Packet) {
    var plain := Opened(Client, packet);
    plain.Ok? && Parse(plain.value.1).Ok? ==> Parse(plain.value.1).value.header.stateId != id
  }

  lemma AssembleLeavesRest(t: Transport, fragment: Fragment, decode: Decoder, id: u64)
    ensures var next := Assemble(t, fragment, decode).0;
            && next.accepted == t.accepted && next.highest == t.highest
            && (id != fragment.header.stateId ==>
                  (id in next.assemblies <==> id in t.assemblies) && Assembly(next, id) == Assembly(t, id))
  {
    hide Pushed;
  }

  lemma PlaintextLeavesRest(t: Transport, plaintext: seq<byte>, decode: Decoder, id: u64)
    ensures var next := TakePlaintext(t, plaintext, decode).0;
            && next.accepted == t.accepted && next.highest == t.highest
            && ((Parse(plaintext).Ok? ==> Parse(plaintext).value.header.stateId != id) ==>
                  (id in next.assemblies <==> id in t.assemblies) && Assembly(next, id) == Assembly(t, id))
  {
    hide Assemble, Parse;
    if |plaintext| >= MINIMUM_FRAGMENT_PLAINTEXT_BYTES && Parse(plaintext).Ok? {
      var stamped := t.(peerTimestamp := Some(FromBigEndian16(plaintext[0..2])));
      AssembleLeavesRest(stamped, Parse(plaintext).value, decode, id);
    }
  }

  lemma TakeGrows(t: Transport, packet: Packet, decode: Decoder)
    requires IsHighest(t.accepted, t.highest)
    ensures var next := Take(t, packet, decode).0;
            t.accepted <= next.accepted && IsHighest(next.accepted, next.highest)
  {
    hide TakePlaintext, Opened;
    var plain := Opened(Client, packet);
    if plain.Ok? { PlaintextLeavesRest(Noted(t, plain.value.0), plain.value.1, decode, 0); }
  }

  lemma ForeignLeavesAssembly(id: u64, t: Transport, packet: Packet, decode: Decoder)
    requires Foreign(id, packet)
    ensures Assembly(Take(t, packet, decode).0, id) == Assembly(t, id)
  {
    hide Parse, TakePlaintext, Acceptable;
    var plain := Opened(Client, packet);
    if plain.Ok? { PlaintextLeavesRest(Noted(t, plain.value.0), plain.value.1, decode, id); }
  }

  // ---- Collecting one message ----------------------------------------------

  /** The indices held of a message, and whether its end is known. */
  datatype Progress = Progress(here: set<FragmentIndex>, ended: bool)

  const NOTHING := Progress({}, false)

  function ProgressOf(a: Accumulated): Progress {
    Progress(a.fragments.Keys, a.finalIndex.Some?)
  }

  function With(p: Progress, k: FragmentIndex, count: nat): Progress {
    Progress(p.here + {k}, p.ended || k + 1 == count)
  }

  predicate IsComplete(p: Progress, count: nat) {
    p.ended && forall k: FragmentIndex :: k < count ==> k in p.here
  }

  /** A complete message is handed on and leaves nothing. */
  function Left(p: Progress, count: nat): Progress {
    if IsComplete(p, count) then NOTHING else p
  }

  /** What is held under the number, if anything, is compatible with the message. */
  predicate Agreeing(c: Content, t: Transport) {
    var a := Assembly(t, c.stateId);
    a.stateId == c.stateId && a.bound == MAXIMUM_REASSEMBLED_BYTES && Compatible(a, c.message)
  }

  predicate HasRoom(t: Transport, id: u64) {
    id in t.assemblies || |t.assemblies| < MAXIMUM_ACTIVE_ASSEMBLIES
  }

  /** No bytes are charged but for what is held, and the final index is known from the fragment at it. */
  predicate Tidy(a: Accumulated) {
    a.totalBytes == StoredBytes(a) && (a.finalIndex.Some? ==> a.finalIndex.value in a.fragments)
  }

  lemma EmptyIsTidy(id: u64)
    ensures Tidy(Empty(id))
  {
    NothingJoined(FINAL_FRAGMENT_BIT);
  }

  lemma KeysAreHeld(a: Accumulated, b: Accumulated)
    ensures forall i :: (i in a.fragments <==> i in a.fragments.Keys) && (i in b.fragments <==> i in b.fragments.Keys)
  {
  }

  lemma EmptyIsCompatible(c: Content)
    requires CanSend(c)
    ensures Compatible(Empty(c.stateId), c.message)
  {
    NothingJoined(FINAL_FRAGMENT_BIT);
  }

  /** What a packet of a sealing is reported as once it is taken. */
  function Outcome(s: Sealing, complete: bool, decode: Decoder): Result<Receipt, Refusal> {
    if !complete then Ok(Receipt(s.sent, s.echoed, None))
    else match decode(s.content.message)
         case None => Err(Undecodable)
         case Some(update) => Ok(Receipt(s.sent, s.echoed, Some(update)))
  }

  lemma WholeIsComplete(a: Accumulated, message: seq<byte>)
    ensures IsWhole(a, message) <==> IsComplete(ProgressOf(a), ChunkCount(message))
  {
    hide ChunkCount;
    if IsComplete(ProgressOf(a), ChunkCount(message)) {
      forall i: FragmentIndex | i < ChunkCount(message) ensures i in a.fragments { assert i in ProgressOf(a).here; }
    }
    if IsWhole(a, message) {
      forall i: FragmentIndex | i < ChunkCount(message) ensures i in ProgressOf(a).here { assert i in a.fragments; }
    }
  }

  lemma AssembleOurs(s: Sealing, t: Transport, k: nat, decode: Decoder)
    requires CanSeal(s) && k < ChunkCount(s.content.message) && HasRoom(t, s.content.stateId) && Agreeing(s.content, t)
    ensures var (next, r) := Assemble(t, FragmentOfSealing(s, k), decode);
            var count := ChunkCount(s.content.message);
            var p := With(ProgressOf(Assembly(t, s.content.stateId)), k, count);
            && r == Outcome(s, IsComplete(p, count), decode)
            && Agreeing(s.content, next) && ProgressOf(Assembly(next, s.content.stateId)) == Left(p, count)
            && (IsComplete(p, count) <==> s.content.stateId !in next.assemblies)
            && (Tidy(Assembly(t, s.content.stateId)) ==> Tidy(Assembly(next, s.content.stateId)))
  {
    EmptyIsTidy(s.content.stateId);
    KeysAreHeld(Assembly(t, s.content.stateId), Pushed(Assembly(t, s.content.stateId), FragmentOfSealing(s, k)).0);
    var fragment := FragmentOfSealing(s, k);
    var a := Assembly(t, s.content.stateId);
    EmptyIsCompatible(s.content);
    PushKeepsCompatible(a, fragment, s.content.message);
    PushAgreeing(a, fragment, s.content.message);
    WholeIsComplete(Pushed(a, fragment).0, s.content.message);
    hide Pushed, IsWhole, IsComplete, Compatible, Agrees, ChunkCount, StoredBytes, HasRoomFor;
  }

  /** Whether the packet gets as far as its assembly. */
  predicate Gets(s: Sealing, t: Transport, k: nat)
    requires CanSeal(s) && k < ChunkCount(s.content.message)
  {
    Acceptable(t.accepted, t.highest, s.first + k) && HasRoom(t, s.content.stateId)
  }

  /**
   A packet of a sealing is a replay, finds no room, or adds its fragment to what is held; the last
   one brings the message.
   */
  lemma OursStep(s: Sealing, t: Transport, k: nat, decode: Decoder)
    requires CanSeal(s) && k < ChunkCount(s.content.message) && Agreeing(s.content, t)
    ensures var (next, r) := Take(t, PacketOfSealing(s, k), decode);
            var (id, count) := (s.content.stateId, ChunkCount(s.content.message));
            var p := With(ProgressOf(Assembly(t, id)), k, count);
            && Agreeing(s.content, next)
            && SameCounters(next, if Acceptable(t.accepted, t.highest, s.first + k) then Noted(t, s.first + k) else t)
            && (Gets(s, t, k) ==>
                  && r == Outcome(s, IsComplete(p, count), decode) && ProgressOf(Assembly(next, id)) == Left(p, count)
                  && (IsComplete(p, count) <==> id !in next.assemblies))
            && (Tidy(Assembly(t, id)) ==> Tidy(Assembly(next, id)))
            && (!Gets(s, t, k) ==>
                  && r == Err(if Acceptable(t.accepted, t.highest, s.first + k) then TooManyActiveAssemblies
                              else ReplayDetected)
                  && Assembly(next, id) == Assembly(t, id))
  {
    hide Take, Assemble, IsComplete, Agreeing, Acceptable, ChunkCount, FragmentOfSealing, PacketOfSealing, Left, With,
         ProgressOf, Outcome, Reached, HasRoom, Assembly, Tidy;
    OursIsAssembled(s, t, k, decode);
    ReachedIsSame(s, t, k);
    if Acceptable(t.accepted, t.highest, s.first + k) {
      var reached := Reached(s, t, k);
      AssembleLeavesRest(reached, FragmentOfSealing(s, k), decode, s.content.stateId);
      if HasRoom(t, s.content.stateId) {
        AssembleOurs(s, reached, k, decode);
      } else {
        NoRoom(s, reached, k, decode);
      }
    }
  }

  /** The replay filter is in the same state. */
  predicate SameCounters(a: Transport, b: Transport) {
    a.accepted == b.accepted && a.highest == b.highest
  }

  lemma ReachedIsSame(s: Sealing, t: Transport, k: nat)
    requires CanSeal(s) && k < ChunkCount(s.content.message)
    ensures var reached := Reached(s, t, k);
            var id := s.content.stateId;
            && SameCounters(reached, Noted(t, s.first + k)) && reached.assemblies == t.assemblies
            && Assembly(reached, id) == Assembly(t, id) && (HasRoom(reached, id) <==> HasRoom(t, id))
            && (Agreeing(s.content, reached) <==> Agreeing(s.content, t))
  {
    hide ChunkCount, Compatible;
  }

  lemma NoRoom(s: Sealing, t: Transport, k: nat, decode: Decoder)
    requires CanSeal(s) && k < ChunkCount(s.content.message) && !HasRoom(t, s.content.stateId)
    ensures Assemble(t, FragmentOfSealing(s, k), decode) == (t, Err(TooManyActiveAssemblies))
  {
    hide ChunkCount, Pushed, Concluded;
  }

  /** A packet whose header contradicts what is held is refused, and leaves it as it was. */
  lemma TurnedAwayStep(s: Sealing, t: Transport, k: nat, decode: Decoder)
    requires CanSeal(s) && k < ChunkCount(s.content.message) && Gets(s, t, k)
    requires HeaderComplaint(Assembly(t, s.content.stateId), FragmentOfSealing(s, k).header).Some?
    ensures var (next, r) := Take(t, PacketOfSealing(s, k), decode);
            var a := Assembly(t, s.content.stateId);
            && Assembly(next, s.content.stateId) == a && SameCounters(next, Noted(t, s.first + k))
            && r == Err(Framing(HeaderComplaint(a, FragmentOfSealing(s, k).header).value))
  {
    hide Take, Acceptable, ChunkCount, PacketOfSealing, FragmentOfSealing, HeaderComplaint;
    OursIsAssembled(s, t, k, decode);
    ReachedIsSame(s, t, k);
    FragmentIsOurs(s, k);
  }

  lemma FragmentIsOurs(s: Sealing, k: nat)
    requires CanSeal(s) && k < ChunkCount(s.content.message)
    ensures var f := FragmentOfSealing(s, k);
            && FragmentOf(f, s.content.message, s.content.stateId) && f.header.index == k
            && f.header.stateId == s.content.stateId && (f.header.isFinal <==> k + 1 == ChunkCount(s.content.message))
  {
  }

  // ---- The packet path as an object ----------------------------------------

  lemma HighestIsUnique(accepted: Counters, a: Option<u64>, b: Option<u64>)
    requires IsHighest(accepted, a) && IsHighest(accepted, b)
    ensures a == b
  {
  }

  /** The fields `ingest_packet` works on before the receive rule. */
  class PacketIngest {
    const decode: Decoder
    const window: ReplayWindow
    var assemblies: map<u64, FragmentAccumulator>
    var latestPeerTimestamp: Option<u16>

    ghost function Held(): map<u64, Accumulated>
      reads this`assemblies, assemblies.Values
    {
      map id | id in assemblies :: assemblies[id].Value()
    }

    ghost predicate Valid()
      reads this`assemblies, window, assemblies.Values
    {
      window.Valid() && Bounded(Held())
    }

    ghost function Value(): Transport
      reads this, window, assemblies.Values
    {
      Transport(window.accepted, window.highest, Held(), latestPeerTimestamp)
    }

    constructor (decode: Decoder)
      ensures Valid() && fresh(window) && assemblies == map[]
      ensures this.decode == decode && Value() == Transport({}, None, map[], None)
    {
      this.decode := decode;
      window := new ReplayWindow();
      assemblies, latestPeerTimestamp := map[], None;
    }

    /** Every object in the map works for the state number it is filed under, so no two are the same. */
    lemma Filed(id: u64)
      requires Valid() && id in assemblies
      ensures assemblies[id].stateId == id && Sound(assemblies[id].Value())
    {
      assert id in Held();
      hide Sound;
    }

    /** The reassembly of a state number, started if there is none and room for one. */
    method FindAssembly(id: u64) returns (assembly: FragmentAccumulator)
      requires Valid() && (id in assemblies || |assemblies| < MAXIMUM_ACTIVE_ASSEMBLIES)
      modifies this`assemblies
      ensures id in assemblies && assemblies[id] == assembly
      ensures forall other :: other in assemblies && other != id ==> assemblies[other] != assembly
      ensures assembly in old(assemblies.Values) || fresh(assembly)
      ensures assemblies.Values <= old(assemblies.Values) + {assembly}
      ensures Held() == old(Held())[id := assembly.Value()]
      ensures assembly.Value() == old(Assembly(Value(), id)) && Sound(assembly.Value())
    {
      hide Bounded, Sound, Represents;
      if id in assemblies {
        forall other | other in assemblies ensures assemblies[other].stateId == other { Filed(other); }
        Filed(id);
        assembly := assemblies[id];
        assert Held() == Held()[id := assembly.Value()];
      } else {
        assembly := StartAssembly(id);
      }
    }

    method StartAssembly(id: u64) returns (assembly: FragmentAccumulator)
      requires id !in assemblies
      modifies this`assemblies
      ensures fresh(assembly) && assemblies == old(assemblies)[id := assembly]
      ensures assemblies.Values <= old(assemblies.Values) + {assembly}
      ensures assembly.Value() == Empty(id) && Sound(assembly.Value())
      ensures Held() == old(Held())[id := assembly.Value()]
    {
      hide Sound;
      ghost var held := Held();
      assembly := new FragmentAccumulator(id, MAXIMUM_REASSEMBLED_BYTES);
      forall other | other in assemblies ensures assemblies[other].Value() == held[other] {}
      assemblies := assemblies[id := assembly];
      assert Held() == held[id := assembly.Value()];
    }

    /** Pushing into one assembly leaves the others alone. */
    method PushInto(id: u64, assembly: FragmentAccumulator, fragment: Fragment)
      returns (pushed: Result<Option<seq<byte>>, FragmentError>)
      requires id in assemblies && assemblies[id] == assembly && Sound(assembly.Value())
      requires forall other :: other in assemblies && other != id ==> assemblies[other] != assembly
      modifies assembly
      ensures pushed == Pushed(old(assembly.Value()), fragment).1
      ensures Held() == old(Held())[id := Pushed(old(assembly.Value()), fragment).0]
    {
      hide Sound, Pushed;
      ghost var held := Held();
      pushed := assembly.Push(fragment);
      forall other | other in assemblies && other != id ensures assemblies[other].Value() == held[other] {}
      assert Held() == held[id := assembly.Value()];
    }

    method PushFragment(fragment: Fragment) returns (pushed: Result<Option<seq<byte>>, FragmentError>)
      requires Valid() && (fragment.header.stateId in assemblies || |assemblies| < MAXIMUM_ACTIVE_ASSEMBLIES)
      modifies this`assemblies, assemblies.Values
      ensures fresh(assemblies.Values - old(assemblies.Values))
      ensures pushed == Pushed(old(Assembly(Value(), fragment.header.stateId)), fragment).1
      ensures Held() == old(Held())[fragment.header.stateId :=
                                    Pushed(old(Assembly(Value(), fragment.header.stateId)), fragment).0]
    {
      var id := fragment.header.stateId;
      hide Bounded, Sound, Pushed, Represents, Assembly;
      var assembly := FindAssembly(id);
      pushed := PushInto(id, assembly, fragment);
    }

    /** Keeps the assembly a push left, or trades it for its decoded message. */
    method Conclude(header: FragmentHeader, pushed: Result<Option<seq<byte>>, FragmentError>, ghost t: Transport)
      returns (r: Result<Receipt, Refusal>)
      requires header.stateId in assemblies
               && Held() == t.assemblies[header.stateId := assemblies[header.stateId].Value()]
      requires window.accepted == t.accepted && window.highest == t.highest && latestPeerTimestamp == t.peerTimestamp
      modifies this`assemblies
      ensures assemblies.Values <= old(assemblies.Values)
      ensures Value() == Concluded(t, header, old(assemblies[header.stateId].Value()), pushed, decode).0
      ensures r == Concluded(t, header, old(assemblies[header.stateId].Value()), pushed, decode).1
    {
      match pushed {
        case Err(error) => return Err(Framing(error));
        case Ok(None) => return Ok(Receipt(header.sentTimestamp, header.echoedTimestamp, None));
        case Ok(Some(message)) =>
          ghost var held := Held();
          assemblies := assemblies - {header.stateId};
          assert Held() == held - {header.stateId};
          assert held - {header.stateId} == t.assemblies - {header.stateId};
          var decoded := decode(message);
          if decoded.None? { return Err(Undecodable); }
          return Ok(Receipt(header.sentTimestamp, header.echoedTimestamp, decoded));
      }
    }

    method AssembleFragment(fragment: Fragment) returns (r: Result<Receipt, Refusal>)
      requires Valid()
      modifies this`assemblies, assemblies.Values
      ensures Valid() && fresh(assemblies.Values - old(assemblies.Values))
      ensures Value() == Assemble(old(Value()), fragment, decode).0
      ensures r == Assemble(old(Value()), fragment, decode).1
    {
      AssembleKeepsBounded(Value(), fragment, decode);
      SameSize();
      hide Bounded, Sound, Pushed, Represents, Assembly, Concluded;
      ghost var t := Value();
      if fragment.header.stateId !in assemblies && |assemblies| >= MAXIMUM_ACTIVE_ASSEMBLIES {
        return Err(TooManyActiveAssemblies);
      }
      var pushed := PushFragment(fragment);
      assert fragment.header.stateId in Held();
      r := Conclude(fragment.header, pushed, t);
    }

    lemma SameSize()
      ensures |Held()| == |assemblies| && forall id :: id in Held() <==> id in assemblies
    {
      assert Held().Keys == assemblies.Keys;
      assert |Held()| == |Held().Keys|;
      assert |assemblies| == |assemblies.Keys|;
    }

    method IngestPlaintext(plaintext: seq<byte>) returns (r: Result<Receipt, Refusal>)
      requires Valid()
      modifies this`assemblies, this`latestPeerTimestamp, assemblies.Values
      ensures Valid() && fresh(assemblies.Values - old(assemblies.Values))
      ensures Value() == TakePlaintext(old(Value()), plaintext, decode).0
      ensures r == TakePlaintext(old(Value()), plaintext, decode).1
    {
      hide Bounded, Represents, Assemble, Parse;
      if |plaintext| < TIMESTAMP_HEADER_BYTES { return Err(Framing(HeaderTooShort)); }
      var sent, echoed := FromBigEndian16(plaintext[0..2]), FromBigEndian16(plaintext[2..4]);
      latestPeerTimestamp := Some(sent);
      if |plaintext| < MINIMUM_FRAGMENT_PLAINTEXT_BYTES { return Ok(Receipt(sent, echoed, None)); }
      var parsed := Parse(plaintext);
      if parsed.Err? { return Err(Framing(parsed.error)); }
      r := AssembleFragment(parsed.value);
    }

    method IngestPacket(packet: Packet) returns (r: Result<Receipt, Refusal>)
      requires Valid()
      modifies this, window, assemblies.Values
      ensures Valid() && fresh(assemblies.Values - old(assemblies.Values))
      ensures Value() == Take(old(Value()), packet, decode).0
      ensures r == Take(old(Value()), packet, decode).1
    {
      ghost var t := Value();
      hide Bounded, TakePlaintext, Opened, Acceptable;
      var plain := Opened(Client, packet);
      if plain.Err? { return Err(NotOpened(plain.error)); }
      var (counter, plaintext) := plain.value;
      var isNew := window.Accept(counter);
      if !isNew {
        HighestIsUnique(window.accepted, window.highest, t.highest);
        return Err(ReplayDetected);
      }
      HighestIsUnique(window.accepted, window.highest, Noted(t, counter).highest);
      assert Value() == Noted(t, counter);
      r := IngestPlaintext(plaintext);
    }
  }
}
