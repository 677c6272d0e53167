/**
 Messages over the wire, whatever else comes under their state number: when a sealed update
 arrives, how often, and what the number may already hold.
 */
module Arrival {
  import opened Prelude
  import opened Wire
  import opened Fragments
  import opened Replay
  import opened Channel
  import opened Ingest

  // ---- Runs -----------------------------------------------------------------

  /** A delivery: packet `k` of some sealing, or any other packet. */
  datatype Delivery = Ours(sealing: Sealing, k: nat) | Other(packet: Packet)

  /** A packet of a sealing of any message under the number, or traffic without a fragment under it. */
  predicate Fits(id: u64, d: Delivery) {
    match d
    case Ours(s, k) => s.content.stateId == id && CanSeal(s) && k < ChunkCount(s.content.message)
    case Other(packet) => Foreign(id, packet)
  }

  predicate AllFit(id: u64, deliveries: seq<Delivery>) {
    forall i :: 0 <= i < |deliveries| ==> Fits(id, deliveries[i])
  }

  function Delivered(id: u64, d: Delivery): Packet
    requires Fits(id, d)
  {
    match d case Ours(s, k) => PacketOfSealing(s, k) case Other(packet) => packet
  }

  /** What is held under the number, if anything, was filed under it. */
  predicate Filed(id: u64, t: Transport) {
    Assembly(t, id).stateId == id && Assembly(t, id).bound == MAXIMUM_REASSEMBLED_BYTES
  }

  /** The header alone makes what is held refuse the packet. */
  predicate TurnedAway(s: Sealing, t: Transport, k: nat)
    requires CanSeal(s) && k < ChunkCount(s.content.message)
  {
    HeaderComplaint(Assembly(t, s.content.stateId), FragmentOfSealing(s, k).header).Some?
  }

  /** A packet that gets through and is taken, because what is held is compatible with its message. */
  predicate Counted(s: Sealing, t: Transport, k: nat)
    requires CanSeal(s) && k < ChunkCount(s.content.message)
  {
    Gets(s, t, k) && Compatible(Assembly(t, s.content.stateId), s.content.message)
  }

  /**
   A packet under the number that gets through is of a message compatible with what is held, or
   refused by its header.
   */
  predicate IsOrderly(id: u64, t: Transport, d: Delivery)
    requires Fits(id, d)
  {
    d.Ours? && Gets(d.sealing, t, d.k) ==> Counted(d.sealing, t, d.k) || TurnedAway(d.sealing, t, d.k)
  }

  /** The transport after the first `i` deliveries. */
  ghost function TakeUpTo(id: u64, start: Transport, deliveries: seq<Delivery>, decode: Decoder, i: nat): Transport
    requires AllFit(id, deliveries) && i <= |deliveries|
  {
    if i == 0 then start
    else Take(TakeUpTo(id, start, deliveries, decode, i - 1), Delivered(id, deliveries[i - 1]), decode).0
  }

  ghost predicate Orderly(id: u64, start: Transport, deliveries: seq<Delivery>, decode: Decoder)
    requires AllFit(id, deliveries)
  {
    forall i :: 0 <= i < |deliveries| ==> IsOrderly(id, TakeUpTo(id, start, deliveries, decode, i), deliveries[i])
  }

  /** What one delivery at `t` makes of the progress: a packet that is taken adds its index. */
  function Advanced(id: u64, t: Transport, p: Progress, d: Delivery): Progress
    requires Fits(id, d)
  {
    if d.Ours? && Counted(d.sealing, t, d.k)
    then Left(With(p, d.k, ChunkCount(d.sealing.content.message)), ChunkCount(d.sealing.content.message))
    else p
  }

  /** What has been brought under the number since a message was last complete, on top of what was there. */
  ghost function Progressed(id: u64, start: Transport, deliveries: seq<Delivery>, decode: Decoder, i: nat): Progress
    requires AllFit(id, deliveries) && i <= |deliveries|
  {
    if i == 0 then ProgressOf(Assembly(start, id))
    else Advanced(id, TakeUpTo(id, start, deliveries, decode, i - 1),
                  Progressed(id, start, deliveries, decode, i - 1), deliveries[i - 1])
  }

  /** The delivery is taken at `t` and brings what was missing. */
  predicate Finishes(id: u64, t: Transport, p: Progress, d: Delivery)
    requires Fits(id, d)
  {
    && d.Ours? && Counted(d.sealing, t, d.k)
    && IsComplete(With(p, d.k, ChunkCount(d.sealing.content.message)), ChunkCount(d.sealing.content.message))
  }

  /** Delivery `i` completes its message. */
  ghost predicate Completes(id: u64, start: Transport, deliveries: seq<Delivery>, decode: Decoder, i: nat)
    requires AllFit(id, deliveries)
  {
    && i < |deliveries|
    && Finishes(id, TakeUpTo(id, start, deliveries, decode, i), Progressed(id, start, deliveries, decode, i),
                deliveries[i])
  }

  /** What a packet of a sealing is reported as, from what is held and what has been brought. */
  function Report(s: Sealing, t: Transport, k: nat, completes: bool, decode: Decoder): Result<Receipt, Refusal>
    requires CanSeal(s) && k < ChunkCount(s.content.message)
  {
    var complaint := HeaderComplaint(Assembly(t, s.content.stateId), FragmentOfSealing(s, k).header);
    if !Acceptable(t.accepted, t.highest, s.first + k) then Err(ReplayDetected)
    else if !HasRoom(t, s.content.stateId) then Err(TooManyActiveAssemblies)
    else if complaint.Some? then Err(Framing(complaint.value))
    else Outcome(s, completes, decode)
  }

  lemma CompatibleIsWelcome(s: Sealing, t: Transport, k: nat)
    requires CanSeal(s) && k < ChunkCount(s.content.message) && Filed(s.content.stateId, t)
    requires Compatible(Assembly(t, s.content.stateId), s.content.message)
    ensures !TurnedAway(s, t, k)
  {
    FragmentIsOurs(s, k);
    hide FragmentOfSealing, ChunkCount, StoredBytes, HoldsAll, Assembly;
  }

  lemma OursAdvances(id: u64, t: Transport, s: Sealing, k: nat, decode: Decoder)
    requires Fits(id, Ours(s, k)) && Filed(id, t) && IsOrderly(id, t, Ours(s, k))
    ensures var (next, r) := Take(t, PacketOfSealing(s, k), decode);
            var p := ProgressOf(Assembly(t, id));
            && Filed(id, next) && ProgressOf(Assembly(next, id)) == Advanced(id, t, p, Ours(s, k))
            && r == Report(s, t, k, Finishes(id, t, p, Ours(s, k)), decode)
            && SameCounters(next, if Acceptable(t.accepted, t.highest, s.first + k) then Noted(t, s.first + k) else t)
  {
    hide Take, Compatible, ChunkCount, Left, With, IsComplete, Assembly, PacketOfSealing, FragmentOfSealing,
         HeaderComplaint,
         Acceptable, Outcome, ProgressOf, HasRoom, Assemble;
    if Compatible(Assembly(t, id), s.content.message) {
      CompatibleIsWelcome(s, t, k);
      OursStep(s, t, k, decode);
    } else if Gets(s, t, k) {
      TurnedAwayStep(s, t, k, decode);
    } else {
      NotTaken(s, t, k, decode);
    }
  }

  lemma NotTaken(s: Sealing, t: Transport, k: nat, decode: Decoder)
    requires CanSeal(s) && k < ChunkCount(s.content.message) && !Gets(s, t, k)
    ensures var (next, r) := Take(t, PacketOfSealing(s, k), decode);
            var acceptable := Acceptable(t.accepted, t.highest, s.first + k);
            && Assembly(next, s.content.stateId) == Assembly(t, s.content.stateId)
            && SameCounters(next, if acceptable then Noted(t, s.first + k) else t)
            && r == Err(if acceptable then TooManyActiveAssemblies else ReplayDetected)
  {
    hide Take, Assemble, ChunkCount, FragmentOfSealing, PacketOfSealing, Acceptable, HasRoom, Assembly;
    OursIsAssembled(s, t, k, decode);
    ReachedIsSame(s, t, k);
    if Acceptable(t.accepted, t.highest, s.first + k) { NoRoom(s, Reached(s, t, k), k, decode); }
  }

  lemma DeliveryAdvances(id: u64, t: Transport, d: Delivery, decode: Decoder)
    requires Fits(id, d) && Filed(id, t) && IsOrderly(id, t, d)
    ensures var next := Take(t, Delivered(id, d), decode).0;
            Filed(id, next) && ProgressOf(Assembly(next, id)) == Advanced(id, t, ProgressOf(Assembly(t, id)), d)
  {
    match d {
      case Ours(s, k) => OursAdvances(id, t, s, k, decode);
      case Other(packet) => ForeignLeavesAssembly(id, t, packet, decode);
    }
    hide Take, ChunkCount, Left, With, Counted, CanSeal, PacketOfSealing, Foreign, Assembly, IsOrderly, Report,
         Finishes;
  }

  lemma {:induction false} RunAdvances(id: u64, start: Transport, deliveries: seq<Delivery>, decode: Decoder, i: nat)
    requires Filed(id, start) && AllFit(id, deliveries) && Orderly(id, start, deliveries, decode) && i <= |deliveries|
    ensures var t := TakeUpTo(id, start, deliveries, decode, i);
            Filed(id, t) && ProgressOf(Assembly(t, id)) == Progressed(id, start, deliveries, decode, i)
  {
    hide Take, Filed, Advanced, Fits, Delivered, Assembly, IsOrderly;
    if i > 0 {
      RunAdvances(id, start, deliveries, decode, i - 1);
      assert Fits(id, deliveries[i - 1]);
      var t := TakeUpTo(id, start, deliveries, decode, i - 1);
      assert IsOrderly(id, t, deliveries[i - 1]);
      DeliveryAdvances(id, t, deliveries[i - 1], decode);
    }
  }

  /**
   Whatever messages are sealed under the number, however often and with whatever else on the wire,
   as long as each packet that gets through suits what is held or is refused by its header: it is
   refused, reported without an update, or, at the delivery that brings the last fragment missing
   and only then, reported with exactly the update that was sealed.
   */
  lemma UpdateArrivesWhenComplete(id: u64, start: Transport, deliveries: seq<Delivery>, decode: Decoder, i: nat)
    requires Filed(id, start) && AllFit(id, deliveries) && Orderly(id, start, deliveries, decode)
    requires i < |deliveries| && deliveries[i].Ours?
    ensures var (s, k, t) := (deliveries[i].sealing, deliveries[i].k, TakeUpTo(id, start, deliveries, decode, i));
            Take(t, PacketOfSealing(s, k), decode).1
            == Report(s, t, k, Completes(id, start, deliveries, decode, i), decode)
  {
    hide Take, TakeUpTo, Filed, ProgressOf, Assembly, PacketOfSealing, ChunkCount, Report, IsOrderly, Finishes,
         Advanced;
    assert Fits(id, deliveries[i]);
    RunAdvances(id, start, deliveries, decode, i);
    var t := TakeUpTo(id, start, deliveries, decode, i);
    assert IsOrderly(id, t, deliveries[i]);
    OursAdvances(id, t, deliveries[i].sealing, deliveries[i].k, decode);
  }

  // ---- At least once --------------------------------------------------------

  /** Delivery `j` is a packet of the message, and is taken. */
  ghost predicate Taken(c: Content, start: Transport, deliveries: seq<Delivery>, decode: Decoder, j: nat)
    requires AllFit(c.stateId, deliveries) && j < |deliveries|
  {
    && deliveries[j].Ours? && deliveries[j].sealing.content == c
    && Counted(deliveries[j].sealing, TakeUpTo(c.stateId, start, deliveries, decode, j), deliveries[j].k)
  }

  /** One of the first `i` deliveries got fragment `k` of the message through. */
  ghost predicate Through(c: Content, start: Transport, deliveries: seq<Delivery>, decode: Decoder, i: nat, k: nat)
    requires AllFit(c.stateId, deliveries) && i <= |deliveries|
  {
    exists j :: 0 <= j < i && Taken(c, start, deliveries, decode, j) && deliveries[j].k == k
  }

  /** Packets of other messages leave the progress under the number as it is. */
  ghost predicate Undisturbed(c: Content, start: Transport, deliveries: seq<Delivery>, decode: Decoder, i: nat)
    requires AllFit(c.stateId, deliveries) && i <= |deliveries|
  {
    forall j :: 0 <= j < i && !Taken(c, start, deliveries, decode, j) ==>
      Progressed(c.stateId, start, deliveries, decode, j + 1) == Progressed(c.stateId, start, deliveries, decode, j)
  }

  /** Delivery `i` completes the message. */
  ghost predicate CompletesIt(c: Content, start: Transport, deliveries: seq<Delivery>, decode: Decoder, i: nat)
    requires AllFit(c.stateId, deliveries)
  {
    Completes(c.stateId, start, deliveries, decode, i) && Taken(c, start, deliveries, decode, i)
  }

  ghost predicate NoneCompletes(c: Content, start: Transport, deliveries: seq<Delivery>, decode: Decoder, i: nat)
    requires AllFit(c.stateId, deliveries)
  {
    forall j :: 0 <= j < i ==> !CompletesIt(c, start, deliveries, decode, j)
  }

  /** The progress counts fragment `k` as brought. */
  predicate Marked(p: Progress, k: FragmentIndex, count: nat) {
    k in p.here && (k + 1 == count ==> p.ended)
  }

  /** What a packet of the message makes of the progress, and that it completes the message exactly when that is all. */
  lemma TakenAdvances(c: Content, start: Transport, deliveries: seq<Delivery>, decode: Decoder, j: nat)
    requires AllFit(c.stateId, deliveries) && j < |deliveries| && Taken(c, start, deliveries, decode, j)
    ensures deliveries[j].Ours? && deliveries[j].k < ChunkCount(c.message) <= FINAL_FRAGMENT_BIT
    ensures var more :=
            With(Progressed(c.stateId, start, deliveries, decode, j), deliveries[j].k, ChunkCount(c.message));
            && Progressed(c.stateId, start, deliveries, decode, j + 1) == Left(more, ChunkCount(c.message))
            && (CompletesIt(c, start, deliveries, decode, j) <==> IsComplete(more, ChunkCount(c.message)))
  {
    assert Fits(c.stateId, deliveries[j]);
    hide TakeUpTo, Counted, ChunkCount, With, IsComplete, Left;
  }

  /** Until the message is complete, every fragment that got through is held, and something is missing. */
  lemma {:induction false} HeldUntilComplete(c: Content, start: Transport, deliveries: seq<Delivery>, decode: Decoder,
                                             i: nat, k: nat)
    requires AllFit(c.stateId, deliveries) && i <= |deliveries| && k < ChunkCount(c.message) <= FINAL_FRAGMENT_BIT
    requires Undisturbed(c, start, deliveries, decode, i)
    requires NoneCompletes(c, start, deliveries, decode, i) && Through(c, start, deliveries, decode, i, k)
    ensures var p := Progressed(c.stateId, start, deliveries, decode, i);
            Marked(p, k, ChunkCount(c.message)) && !IsComplete(p, ChunkCount(c.message))
  {
    hide ChunkCount, Fits, Taken, CompletesIt, Progressed;
    var n := i - 1;
    assert !CompletesIt(c, start, deliveries, decode, n);
    if Through(c, start, deliveries, decode, n, k) { HeldUntilComplete(c, start, deliveries, decode, n, k); }
    if Taken(c, start, deliveries, decode, n) { TakenAdvances(c, start, deliveries, decode, n); }
  }

  /**
   Once every fragment of a message has got through, in any order and by whichever of its sealings,
   some delivery has completed it, unless packets of other messages have come between.
   */
  lemma UpdateArrives(c: Content, start: Transport, deliveries: seq<Delivery>, decode: Decoder, i: nat)
    requires CanSend(c) && AllFit(c.stateId, deliveries) && i <= |deliveries|
    requires Undisturbed(c, start, deliveries, decode, i)
    requires forall k: nat :: k < ChunkCount(c.message) ==> Through(c, start, deliveries, decode, i, k)
    ensures exists j :: 0 <= j < i && CompletesIt(c, start, deliveries, decode, j)
  {
    hide Through, CompletesIt, Progressed, ChunkCount, Undisturbed;
    if NoneCompletes(c, start, deliveries, decode, i) {
      var count := ChunkCount(c.message);
      var p := Progressed(c.stateId, start, deliveries, decode, i);
      forall k: FragmentIndex | k < count ensures k in p.here {
        var index: nat := k;
        HeldUntilComplete(c, start, deliveries, decode, i, index);
      }
      HeldUntilComplete(c, start, deliveries, decode, i, count - 1);
    }
  }

  // ---- At most once ---------------------------------------------------------

  ghost function Completions(c: Content, start: Transport, deliveries: seq<Delivery>, decode: Decoder, i: nat): nat
    requires AllFit(c.stateId, deliveries) && i <= |deliveries|
  {
    if i == 0 then 0
    else
      Completions(c, start, deliveries, decode, i - 1)
      + if CompletesIt(c, start, deliveries, decode, i - 1) then 1 else 0
  }

  /** The sealings, by their first counter, whose packet `k` has been accepted. */
  function Spent(firsts: set<nat>, t: Transport, k: nat): set<nat> {
    set first | first in firsts && first + k in t.accepted
  }

  lemma SmallerSet<T>(a: set<T>, b: set<T>)
    requires a <= b
    ensures |a| <= |b|
  {
    assert b == a + (b - a);
  }

  lemma SpentGrows(firsts: set<nat>, t: Transport, next: Transport, k: nat)
    requires t.accepted <= next.accepted
    ensures |Spent(firsts, t, k)| <= |Spent(firsts, next, k)|
  {
    SmallerSet(Spent(firsts, t, k), Spent(firsts, next, k));
  }

  lemma SpentByOne(firsts: set<nat>, t: Transport, next: Transport, first: nat, k: nat)
    requires first in firsts && first + k <= U64_MAX && first + k !in t.accepted
             && next.accepted == t.accepted + {first + k}
    ensures |Spent(firsts, t, k)| < |Spent(firsts, next, k)|
  {
    assert first + k in next.accepted;
    SmallerSet(Spent(firsts, t, k) + {first}, Spent(firsts, next, k));
  }

  lemma NewIsUnaccepted(t: Transport, counter: u64)
    requires IsHighest(t.accepted, t.highest) && Acceptable(t.accepted, t.highest, counter)
    ensures counter !in t.accepted
  {
  }

  /** How many completions are spoken for: those so far, and one more once the marked fragment is held. */
  function Claims(p: Progress, completions: nat, k: FragmentIndex, count: nat): nat {
    completions + if Marked(p, k, count) then 1 else 0
  }

  lemma ClaimsStep(p: Progress, j: FragmentIndex, k: FragmentIndex, count: nat, completions: nat)
    requires k < count
    ensures var more := With(p, j, count);
            Claims(Left(more, count), completions + (if IsComplete(more, count) then 1 else 0), k, count)
            <= Claims(p, completions, k, count) + if j == k then 1 else 0
  {
    var more := With(p, j, count);
    if j != k { assert Marked(more, k, count) <==> Marked(p, k, count); }
    if IsComplete(more, count) {
      assert k in more.here && Marked(more, k, count);
      assert !Marked(NOTHING, k, count);
    }
  }

  lemma {:induction false} RunClaims(c: Content, start: Transport, deliveries: seq<Delivery>, decode: Decoder, i: nat,
                                     k: FragmentIndex, firsts: set<nat>)
    requires IsHighest(start.accepted, start.highest) && AllFit(c.stateId, deliveries) && i <= |deliveries|
    requires Undisturbed(c, start, deliveries, decode, i) && k < ChunkCount(c.message)
    requires !Marked(ProgressOf(Assembly(start, c.stateId)), k, ChunkCount(c.message))
    requires SealedBy(c, deliveries, firsts)
    ensures var t := TakeUpTo(c.stateId, start, deliveries, decode, i);
            && IsHighest(t.accepted, t.highest)
            && Claims(Progressed(c.stateId, start, deliveries, decode, i),
                      Completions(c, start, deliveries, decode, i), k, ChunkCount(c.message))
               <= |Spent(firsts, t, k)|
  {
    hide Take, IsHighest, Advanced, Claims, Spent, ChunkCount, Fits, Delivered, IsComplete, With, Counted, Taken,
         SealedBy;
    if i == 0 {
      NoClaims(ProgressOf(Assembly(start, c.stateId)), k, ChunkCount(c.message));
    } else {
      RunClaims(c, start, deliveries, decode, i - 1, k, firsts);
      StepClaims(c, start, deliveries, decode, i - 1, k, firsts);
    }
  }

  lemma StepClaims(c: Content, start: Transport, deliveries: seq<Delivery>, decode: Decoder, j: nat,
                   k: FragmentIndex, firsts: set<nat>)
    requires AllFit(c.stateId, deliveries) && j < |deliveries| && k < ChunkCount(c.message)
    requires Undisturbed(c, start, deliveries, decode, j + 1) && SealedBy(c, deliveries, firsts)
    requires var t := TakeUpTo(c.stateId, start, deliveries, decode, j);
             && IsHighest(t.accepted, t.highest)
             && Claims(Progressed(c.stateId, start, deliveries, decode, j),
                       Completions(c, start, deliveries, decode, j), k, ChunkCount(c.message))
                <= |Spent(firsts, t, k)|
    ensures var t := TakeUpTo(c.stateId, start, deliveries, decode, j + 1);
            && IsHighest(t.accepted, t.highest)
            && Claims(Progressed(c.stateId, start, deliveries, decode, j + 1),
                      Completions(c, start, deliveries, decode, j + 1), k, ChunkCount(c.message))
               <= |Spent(firsts, t, k)|
  {
    hide Take, IsHighest, Claims, Spent, ChunkCount, Fits, Delivered, Taken, SealedBy, Progressed, Acceptable;
    assert Fits(c.stateId, deliveries[j]);
    var t, next := TakeUpTo(c.stateId, start, deliveries, decode, j),
        TakeUpTo(c.stateId, start, deliveries, decode, j + 1);
    var p, done := Progressed(c.stateId, start, deliveries, decode, j), Completions(c, start, deliveries, decode, j);
    TakeGrows(t, Delivered(c.stateId, deliveries[j]), decode);
    SpentGrows(firsts, t, next, k);
    if Taken(c, start, deliveries, decode, j) {
      TakenAdvances(c, start, deliveries, decode, j);
      ClaimsStep(p, deliveries[j].k, k, ChunkCount(c.message), done);
      if deliveries[j].k == k { TakenSpends(c, start, deliveries, decode, j, firsts); }
    }
  }

  /** The taken packet's sealing had not spent its packet `k` before. */
  lemma TakenSpends(c: Content, start: Transport, deliveries: seq<Delivery>, decode: Decoder, j: nat, firsts: set<nat>)
    requires AllFit(c.stateId, deliveries) && j < |deliveries| && Taken(c, start, deliveries, decode, j)
    requires SealedBy(c, deliveries, firsts)
    requires var t := TakeUpTo(c.stateId, start, deliveries, decode, j); IsHighest(t.accepted, t.highest)
    ensures |Spent(firsts, TakeUpTo(c.stateId, start, deliveries, decode, j), deliveries[j].k)|
            < |Spent(firsts, TakeUpTo(c.stateId, start, deliveries, decode, j + 1), deliveries[j].k)|
  {
    hide Take, IsHighest, Spent, ChunkCount, Acceptable, PacketOfSealing, Compatible, HasRoom, Assembly;
    assert Fits(c.stateId, deliveries[j]);
    var t, next := TakeUpTo(c.stateId, start, deliveries, decode, j),
        TakeUpTo(c.stateId, start, deliveries, decode, j + 1);
    var s, k := deliveries[j].sealing, deliveries[j].k;
    NewIsUnaccepted(t, s.first + k);
    TakeGrows(t, PacketOfSealing(s, k), decode);
    AcceptedIsNoted(s, t, k, decode);
    SpentByOne(firsts, t, next, s.first, k);
  }

  lemma AcceptedIsNoted(s: Sealing, t: Transport, k: nat, decode: Decoder)
    requires CanSeal(s) && k < ChunkCount(s.content.message) && Acceptable(t.accepted, t.highest, s.first + k)
    ensures Take(t, PacketOfSealing(s, k), decode).0.accepted == t.accepted + {s.first + k}
  {
    hide Take, Assemble, Acceptable, ChunkCount, PacketOfSealing, FragmentOfSealing;
    OursIsAssembled(s, t, k, decode);
    ReachedIsSame(s, t, k);
    AssembleLeavesRest(Reached(s, t, k), FragmentOfSealing(s, k), decode, s.content.stateId);
  }

  lemma NoClaims(p: Progress, k: FragmentIndex, count: nat)
    requires !Marked(p, k, count)
    ensures Claims(p, 0, k, count) == 0
  {
  }

  lemma MissingMark(p: Progress, count: nat) returns (k: FragmentIndex)
    requires 0 < count <= FINAL_FRAGMENT_BIT && !IsComplete(p, count)
    ensures k < count && !Marked(p, k, count)
  {
    if missing: FragmentIndex :| missing < count && missing !in p.here { k := missing; } else { k := count - 1; }
  }

  /** The sealings of the message, by their first counter. */
  predicate SealedBy(c: Content, deliveries: seq<Delivery>, firsts: set<nat>) {
    forall j :: 0 <= j < |deliveries| && deliveries[j].Ours? && deliveries[j].sealing.content == c ==>
      deliveries[j].sealing.first in firsts
  }

  /**
   A message is completed at most as often as it was sealed, however its packets are repeated and
   reordered, unless packets of other messages have come between.
   */
  lemma UpdateArrivesOnce(c: Content, start: Transport, deliveries: seq<Delivery>, decode: Decoder, firsts: set<nat>)
    requires CanSend(c) && IsHighest(start.accepted, start.highest) && AllFit(c.stateId, deliveries)
    requires Undisturbed(c, start, deliveries, decode, |deliveries|)
    requires !IsComplete(ProgressOf(Assembly(start, c.stateId)), ChunkCount(c.message))
    requires SealedBy(c, deliveries, firsts)
    ensures Completions(c, start, deliveries, decode, |deliveries|) <= |firsts|
  {
    hide Take, TakeUpTo, IsHighest, IsComplete, Progressed, Completions, Fits, Marked, Undisturbed, SealedBy;
    var k := MissingMark(ProgressOf(Assembly(start, c.stateId)), ChunkCount(c.message));
    RunClaims(c, start, deliveries, decode, |deliveries|, k, firsts);
    SmallerSet(Spent(firsts, TakeUpTo(c.stateId, start, deliveries, decode, |deliveries|), k), firsts);
  }

  // ---- Runs that are orderly ------------------------------------------------

  /** Nothing but sealings of one message comes under its number. */
  predicate OnlyMessage(c: Content, deliveries: seq<Delivery>) {
    forall j :: 0 <= j < |deliveries| && deliveries[j].Ours? ==> deliveries[j].sealing.content == c
  }

  lemma {:induction false} AgreementStays(c: Content, start: Transport, deliveries: seq<Delivery>, decode: Decoder,
                                          i: nat)
    requires AllFit(c.stateId, deliveries) && OnlyMessage(c, deliveries) && Agreeing(c, start) && i <= |deliveries|
    ensures Agreeing(c, TakeUpTo(c.stateId, start, deliveries, decode, i))
  {
    hide Take, Compatible, ChunkCount, PacketOfSealing, Acceptable, Left, With, IsComplete, Outcome, ProgressOf, Tidy;
    if i > 0 {
      AgreementStays(c, start, deliveries, decode, i - 1);
      assert Fits(c.stateId, deliveries[i - 1]);
      var t := TakeUpTo(c.stateId, start, deliveries, decode, i - 1);
      match deliveries[i - 1] {
        case Ours(s, k) => OursStep(s, t, k, decode);
        case Other(packet) => ForeignLeavesAssembly(c.stateId, t, packet, decode);
      }
    }
  }

  /** However often one message is sealed again, on top of anything compatible with it, the run is orderly. */
  lemma OneMessageIsOrderly(c: Content, start: Transport, deliveries: seq<Delivery>, decode: Decoder)
    requires AllFit(c.stateId, deliveries) && OnlyMessage(c, deliveries) && Agreeing(c, start)
    ensures Filed(c.stateId, start) && Orderly(c.stateId, start, deliveries, decode)
    ensures Undisturbed(c, start, deliveries, decode, |deliveries|)
  {
    hide Take, TakeUpTo, Compatible, ChunkCount, Gets, Left, With;
    forall i | 0 <= i < |deliveries|
      ensures IsOrderly(c.stateId, TakeUpTo(c.stateId, start, deliveries, decode, i), deliveries[i])
    {
      AgreementStays(c, start, deliveries, decode, i);
    }
  }

  /** A message of one packet that does not come while exactly the first fragment of a longer one is held. */
  predicate ComesBetween(p: Progress, d: Delivery) {
    d.Ours? && CanSeal(d.sealing) && ChunkCount(d.sealing.content.message) == 1 && p.here != {0}
  }

  /** Besides sealings of the message only such messages of one packet come under its number. */
  ghost predicate Interleaved(c: Content, start: Transport, deliveries: seq<Delivery>, decode: Decoder)
    requires AllFit(c.stateId, deliveries)
  {
    forall j :: 0 <= j < |deliveries| && deliveries[j].Ours? && deliveries[j].sealing.content != c ==>
      ComesBetween(Progressed(c.stateId, start, deliveries, decode, j), deliveries[j])
  }

  /** What is held is compatible with the message and tidy, and so are the books about it. */
  predicate Collecting(c: Content, t: Transport) {
    Agreeing(c, t) && Tidy(Assembly(t, c.stateId))
  }

  lemma NothingHeld(a: Accumulated)
    requires Tidy(a) && ProgressOf(a).here == {}
    ensures a.fragments == map[] && a.finalIndex.None? && a.totalBytes == 0
  {
    assert forall i :: i in a.fragments ==> i in ProgressOf(a).here;
    NothingJoined(FINAL_FRAGMENT_BIT);
  }

  /** A message of one packet suits an accumulator that holds nothing. */
  lemma NothingSuitsAll(a: Accumulated, message: seq<byte>)
    requires Tidy(a) && ProgressOf(a).here == {} && |message| <= a.bound
    ensures Compatible(a, message) && ProgressOf(a) == NOTHING
  {
    NothingHeld(a);
    NothingJoined(FINAL_FRAGMENT_BIT);
  }

  lemma AnotherIndex(here: set<FragmentIndex>) returns (i: FragmentIndex)
    requires here != {} && here != {0}
    ensures i in here && i != 0
  {
    var rest := here - {0};
    assert here == rest || here == rest + {0};
    i :| i in rest;
  }

  /** One packet is turned away by what is held of a longer message beyond, or without, its first fragment. */
  lemma OnePacketIsTurnedAway(s: Sealing, t: Transport, c: Content)
    requires CanSeal(s) && ChunkCount(s.content.message) == 1 && s.content.stateId == c.stateId
    requires Collecting(c, t) && ChunkCount(c.message) > 1 && ProgressOf(Assembly(t, c.stateId)).here !in {{}, {0}}
    ensures TurnedAway(s, t, 0)
  {
    FragmentIsOurs(s, 0);
    var a := Assembly(t, c.stateId);
    hide ChunkCount, FragmentOfSealing, StoredBytes, HoldsAll, Assembly;
    if a.finalIndex.None? {
      var i := AnotherIndex(ProgressOf(a).here);
      assert i in a.fragments && i > 0;
    }
  }

  /** A delivery of an interleaved run is orderly, and leaves the collecting as it is or takes it further. */
  lemma CollectingStep(c: Content, t: Transport, d: Delivery, decode: Decoder)
    requires Fits(c.stateId, d) && Collecting(c, t) && ChunkCount(c.message) > 1 && CanSend(c)
    requires d.Ours? && d.sealing.content != c ==> ComesBetween(ProgressOf(Assembly(t, c.stateId)), d)
    ensures IsOrderly(c.stateId, t, d) && Collecting(c, Take(t, Delivered(c.stateId, d), decode).0)
    ensures var p := ProgressOf(Assembly(t, c.stateId));
            !(d.Ours? && d.sealing.content == c) ==> Advanced(c.stateId, t, p, d) == p
  {
    hide Take, Compatible, ChunkCount, PacketOfSealing, Acceptable, IsComplete, Outcome, ProgressOf, Tidy, Assembly,
         FragmentOfSealing, HeaderComplaint, HasRoom, Foreign, With, Left;
    match d {
      case Other(packet) => ForeignLeavesAssembly(c.stateId, t, packet, decode);
      case Ours(s, k) =>
        if s.content == c { OursStep(s, t, k, decode); } else { BetweenStep(c, t, s, k, decode); }
    }
  }

  lemma BetweenStep(c: Content, t: Transport, s: Sealing, k: nat, decode: Decoder)
    requires Fits(c.stateId, Ours(s, k)) && Collecting(c, t) && ChunkCount(c.message) > 1 && CanSend(c)
    requires s.content != c && ComesBetween(ProgressOf(Assembly(t, c.stateId)), Ours(s, k))
    ensures IsOrderly(c.stateId, t, Ours(s, k)) && Collecting(c, Take(t, PacketOfSealing(s, k), decode).0)
    ensures var p := ProgressOf(Assembly(t, c.stateId)); Advanced(c.stateId, t, p, Ours(s, k)) == p
  {
    assert k == 0;
    hide Take, Compatible, ChunkCount, PacketOfSealing, Acceptable, Outcome, Tidy, FragmentOfSealing, HeaderComplaint,
         HasRoom, Left, With, IsComplete, Assembly, ProgressOf;
    var p := ProgressOf(Assembly(t, c.stateId));
    if p.here == {} {
      NothingSuitsAll(Assembly(t, c.stateId), s.content.message);
      OursStep(s, t, 0, decode);
      OneBringsAll(p);
      EmptyAgain(c, Take(t, PacketOfSealing(s, 0), decode).0);
      if !Gets(s, t, 0) { SameHeld(c, t, Take(t, PacketOfSealing(s, 0), decode).0); }
    } else {
      OnePacketIsTurnedAway(s, t, c);
      TurnedAwayIsUncounted(s, t, 0);
      if Gets(s, t, 0) { TurnedAwayStep(s, t, 0, decode); } else { NotTaken(s, t, 0, decode); }
      SameHeld(c, t, Take(t, PacketOfSealing(s, 0), decode).0);
    }
  }

  lemma OneBringsAll(p: Progress)
    ensures IsComplete(With(p, 0, 1), 1) && Left(With(p, 0, 1), 1) == NOTHING
  {
  }

  lemma EmptyAgain(c: Content, t: Transport)
    requires CanSend(c)
    ensures c.stateId !in t.assemblies ==> Collecting(c, t)
  {
    EmptyIsCompatible(c);
    EmptyIsTidy(c.stateId);
  }

  lemma SameHeld(c: Content, t: Transport, next: Transport)
    requires Assembly(next, c.stateId) == Assembly(t, c.stateId) && Collecting(c, t)
    ensures Collecting(c, next)
  {
    hide Assembly, Compatible, Tidy;
  }

  lemma TurnedAwayIsUncounted(s: Sealing, t: Transport, k: nat)
    requires CanSeal(s) && k < ChunkCount(s.content.message) && Filed(s.content.stateId, t) && TurnedAway(s, t, k)
    ensures !Counted(s, t, k)
  {
    hide TurnedAway, Compatible, ChunkCount, Gets;
    if Compatible(Assembly(t, s.content.stateId), s.content.message) { CompatibleIsWelcome(s, t, k); }
  }

  lemma {:induction false} CollectingStays(c: Content, start: Transport, deliveries: seq<Delivery>, decode: Decoder,
                                           i: nat)
    requires AllFit(c.stateId, deliveries) && CanSend(c) && ChunkCount(c.message) > 1 && Collecting(c, start)
    requires Interleaved(c, start, deliveries, decode) && i <= |deliveries|
    ensures var t := TakeUpTo(c.stateId, start, deliveries, decode, i);
            Collecting(c, t)
              && ProgressOf(Assembly(t, c.stateId)) == Progressed(c.stateId, start, deliveries, decode, i)
  {
    hide Take, Collecting, Advanced, Fits, Delivered, Assembly, IsOrderly, ComesBetween, ChunkCount;
    if i > 0 {
      CollectingStays(c, start, deliveries, decode, i - 1);
      assert Fits(c.stateId, deliveries[i - 1]);
      var t := TakeUpTo(c.stateId, start, deliveries, decode, i - 1);
      CollectingStep(c, t, deliveries[i - 1], decode);
      CollectingIsFiled(c, t);
      DeliveryAdvances(c.stateId, t, deliveries[i - 1], decode);
    }
  }

  lemma CollectingIsFiled(c: Content, t: Transport)
    requires Collecting(c, t)
    ensures Filed(c.stateId, t)
  {
    hide Compatible, Tidy, Assembly;
  }

  /**
   Acknowledgements, repeats and other messages of one packet may come under the number of a longer
   message while it is being collected, at any moment but when exactly its first fragment is held:
   they are handed on at once or turned away, and the longer message is not disturbed.
   */
  lemma InterleavedIsOrderly(c: Content, start: Transport, deliveries: seq<Delivery>, decode: Decoder)
    requires AllFit(c.stateId, deliveries) && CanSend(c) && ChunkCount(c.message) > 1
    requires Assembly(start, c.stateId) == Empty(c.stateId) && Interleaved(c, start, deliveries, decode)
    ensures Filed(c.stateId, start) && Orderly(c.stateId, start, deliveries, decode)
    ensures Undisturbed(c, start, deliveries, decode, |deliveries|)
  {
    assert Collecting(c, start) by {
      EmptyIsCompatible(c);
      EmptyIsTidy(c.stateId);
    }
    CollectingIsFiled(c, start);
    hide Take, TakeUpTo, Collecting, ChunkCount, Fits, ComesBetween, Assembly, IsOrderly, Advanced, Counted;
    forall i | 0 <= i < |deliveries|
      ensures IsOrderly(c.stateId, TakeUpTo(c.stateId, start, deliveries, decode, i), deliveries[i])
      ensures !Taken(c, start, deliveries, decode, i) ==>
                Progressed(c.stateId, start, deliveries, decode, i + 1)
                  == Progressed(c.stateId, start, deliveries, decode, i)
    {
      assert Fits(c.stateId, deliveries[i]);
      CollectingStays(c, start, deliveries, decode, i);
      var t := TakeUpTo(c.stateId, start, deliveries, decode, i);
      CollectingStep(c, t, deliveries[i], decode);
      UncountedStays(c.stateId, t, Progressed(c.stateId, start, deliveries, decode, i), deliveries[i]);
    }
  }

  lemma UncountedStays(id: u64, t: Transport, p: Progress, d: Delivery)
    requires Fits(id, d)
    ensures !(d.Ours? && Counted(d.sealing, t, d.k)) ==> Advanced(id, t, p, d) == p
  {
    hide Counted;
  }

  // ---- Numbers for messages of one packet -----------------------------------

  predicate OnlyOnePacket(deliveries: seq<Delivery>) {
    forall j :: 0 <= j < |deliveries| && deliveries[j].Ours? && CanSeal(deliveries[j].sealing) ==>
      ChunkCount(deliveries[j].sealing.content.message) == 1
  }

  lemma OnePacketStep(id: u64, t: Transport, s: Sealing, k: nat, decode: Decoder)
    requires Fits(id, Ours(s, k)) && ChunkCount(s.content.message) == 1 && Assembly(t, id) == Empty(id)
    ensures k == 0 && Compatible(Assembly(t, id), s.content.message) && Filed(id, t)
    ensures Assembly(Take(t, PacketOfSealing(s, k), decode).0, id) == Empty(id)
    ensures IsComplete(With(ProgressOf(Assembly(t, id)), 0, 1), 1)
  {
    assert k == 0;
    EmptyIsCompatible(s.content);
    hide Take, Compatible, ChunkCount, PacketOfSealing, Acceptable, Outcome, Tidy, HasRoom;
    OneBringsAll(ProgressOf(Assembly(t, id)));
    OursStep(s, t, 0, decode);
  }

  lemma {:induction false} NothingStays(id: u64, start: Transport, deliveries: seq<Delivery>, decode: Decoder, i: nat)
    requires AllFit(id, deliveries) && OnlyOnePacket(deliveries) && Assembly(start, id) == Empty(id)
             && i <= |deliveries|
    ensures Assembly(TakeUpTo(id, start, deliveries, decode, i), id) == Empty(id)
  {
    hide Take, Compatible, ChunkCount, PacketOfSealing, Assembly, With, IsComplete, ProgressOf;
    if i > 0 {
      NothingStays(id, start, deliveries, decode, i - 1);
      assert Fits(id, deliveries[i - 1]);
      var t := TakeUpTo(id, start, deliveries, decode, i - 1);
      match deliveries[i - 1] {
        case Ours(s, k) => OnePacketStep(id, t, s, k, decode);
        case Other(packet) => ForeignLeavesAssembly(id, t, packet, decode);
      }
    }
  }

  /**
   Under a number that only messages of one packet use, as heartbeats and acknowledgements do, every
   packet that is new and finds room hands its own update on at once, whatever came before it.
   */
  lemma OnePacketMessagesArriveAtOnce(id: u64, start: Transport, deliveries: seq<Delivery>, decode: Decoder, i: nat)
    requires AllFit(id, deliveries) && OnlyOnePacket(deliveries) && Assembly(start, id) == Empty(id)
    requires i < |deliveries| && deliveries[i].Ours?
    ensures var (s, t) := (deliveries[i].sealing, TakeUpTo(id, start, deliveries, decode, i));
            Gets(s, t, deliveries[i].k) ==>
              Take(t, PacketOfSealing(s, deliveries[i].k), decode).1 == Outcome(s, true, decode)
  {
    hide Take, TakeUpTo, Compatible, ChunkCount, PacketOfSealing, With, ProgressOf, Acceptable, HasRoom, Tidy, Left,
         IsComplete;
    assert Fits(id, deliveries[i]);
    NothingStays(id, start, deliveries, decode, i);
    var t := TakeUpTo(id, start, deliveries, decode, i);
    OnePacketStep(id, t, deliveries[i].sealing, deliveries[i].k, decode);
    OursStep(deliveries[i].sealing, t, deliveries[i].k, decode);
  }

  // ---- What may be held under the number -----------------------------------

  /** Replays aside, every packet is taken, until one brings the update. */
  ghost predicate Arrives(s: Sealing, t: Transport, order: seq<nat>, decode: Decoder)
    requires CanSeal(s)
    decreases |order|
  {
    && order != [] && order[0] < ChunkCount(s.content.message)
    && (if !Acceptable(t.accepted, t.highest, s.first + order[0]) then Arrives(s, t, order[1..], decode)
        else
          var (next, r) := Take(t, PacketOfSealing(s, order[0]), decode);
          && r.Ok?
          && (if r.value.update.Some? then r.value.update == decode(s.content.message)
              else Arrives(s, next, order[1..], decode)))
  }

  /** An order in which every packet of the sealing comes at least once. */
  predicate Brings(order: seq<nat>, count: nat) {
    && (forall j :: 0 <= j < |order| ==> order[j] < count)
    && (forall k: nat :: k < count ==> k in order)
  }

  /** No packet comes after one that is ahead of it by the replay window or more. */
  predicate InWindow(order: seq<nat>) {
    forall i, j :: 0 <= i < j < |order| ==> order[i] < order[j] + REPLAY_WINDOW_BITS
  }

  /** What is held and what is still to come make up the message. */
  predicate Covers(p: Progress, order: seq<nat>, count: nat) {
    && (forall j :: 0 <= j < |order| ==> order[j] < count)
    && (forall k: FragmentIndex :: k < count ==> k in p.here || k in order)
    && (p.ended || count - 1 in order)
  }

  /** What the filter has accepted of the sealing is held, and all that is to come is inside the window. */
  predicate Passes(s: Sealing, t: Transport, p: Progress, order: seq<nat>, count: nat) {
    && IsHighest(t.accepted, t.highest)
    && (forall k: FragmentIndex :: k < count && s.first + k in t.accepted ==> Marked(p, k, count))
    && (t.highest.Some? ==>
          forall j :: 0 <= j < |order| ==> t.highest.value < s.first + order[j] + REPLAY_WINDOW_BITS)
  }

  lemma CoversRest(p: Progress, order: seq<nat>, count: nat)
    requires order != [] && order[0] < count <= FINAL_FRAGMENT_BIT && Covers(p, order, count)
    ensures Covers(With(p, order[0], count), order[1..], count)
    ensures Marked(p, order[0], count) ==> Covers(p, order[1..], count)
  {
    assert forall x :: x in order <==> x == order[0] || x in order[1..];
  }

  /** A replay brings nothing that is not held already. */
  lemma ReplayIsHeld(s: Sealing, t: Transport, p: Progress, order: seq<nat>, count: nat)
    requires CanSeal(s) && order != [] && order[0] < count == ChunkCount(s.content.message)
             && Passes(s, t, p, order, count)
    requires !Acceptable(t.accepted, t.highest, s.first + order[0])
    ensures Marked(p, order[0], count) && Passes(s, t, p, order[1..], count)
  {
    hide Marked, ChunkCount;
    var k: FragmentIndex := order[0];
    assert s.first + k in t.accepted;
  }

  lemma PassesRest(s: Sealing, t: Transport, next: Transport, p: Progress, order: seq<nat>, count: nat)
    requires CanSeal(s) && order != [] && order[0] < count == ChunkCount(s.content.message)
    requires Passes(s, t, p, order, count) && InWindow(order) && Acceptable(t.accepted, t.highest, s.first + order[0])
    requires SameCounters(next, Noted(t, s.first + order[0]))
    ensures Passes(s, next, With(p, order[0], count), order[1..], count)
  {
    hide ChunkCount;
    var more := With(p, order[0], count);
    forall k: FragmentIndex | k < count && s.first + k in next.accepted ensures Marked(more, k, count) {
      if k == order[0] {
        assert k in more.here;
      } else {
        assert s.first + k in t.accepted;
        assert Marked(p, k, count);
      }
    }
    var rest := order[1..];
    forall j | 0 <= j < |rest| ensures next.highest.value < s.first + rest[j] + REPLAY_WINDOW_BITS {
      assert rest[j] == order[j + 1];
    }
  }

  lemma HeadIsIndex(p: Progress, order: seq<nat>, count: nat)
    requires order != [] && Covers(p, order, count)
    ensures order[0] < count
  {
  }

  lemma NothingMissing(p: Progress, order: seq<nat>, count: nat)
    requires 0 < count <= FINAL_FRAGMENT_BIT && Covers(p, order, count) && !IsComplete(p, count)
    ensures order != [] && order[0] < count
  {
  }

  lemma InWindowRest(order: seq<nat>)
    requires order != [] && InWindow(order)
    ensures InWindow(order[1..])
  {
  }

  lemma {:induction false} CompatibleArrives(s: Sealing, t: Transport, order: seq<nat>, decode: Decoder)
    requires CanSeal(s) && Agreeing(s.content, t) && HasRoom(t, s.content.stateId) && decode(s.content.message).Some?
    requires var (p, count) := (ProgressOf(Assembly(t, s.content.stateId)), ChunkCount(s.content.message));
             Covers(p, order, count) && Passes(s, t, p, order, count) && InWindow(order)
             && order != [] && (IsComplete(p, count) ==> Acceptable(t.accepted, t.highest, s.first + order[0]))
    ensures Arrives(s, t, order, decode)
    decreases |order|
  {
    hide Take, Agreeing, ChunkCount, PacketOfSealing, Acceptable, Assembly, ProgressOf, With, Covers, IsComplete,
         InWindow, Passes, Marked, Arrives, HasRoom, Left, Outcome;
    var p, count := ProgressOf(Assembly(t, s.content.stateId)), ChunkCount(s.content.message);
    HeadIsIndex(p, order, count);
    InWindowRest(order);
    CoversRest(p, order, count);
    if !Acceptable(t.accepted, t.highest, s.first + order[0]) {
      ReplayIsHeld(s, t, p, order, count);
      NothingMissing(p, order[1..], count);
      CompatibleArrives(s, t, order[1..], decode);
      ArrivesBehindReplay(s, t, order, decode);
    } else {
      OursStep(s, t, order[0], decode);
      var next, more := Take(t, PacketOfSealing(s, order[0]), decode).0, With(p, order[0], count);
      PassesRest(s, t, next, p, order, count);
      if !IsComplete(more, count) {
        LeftIsAll(more, count);
        NothingMissing(more, order[1..], count);
        RoomIsKept(next, s.content.stateId);
        CompatibleArrives(s, next, order[1..], decode);
      }
      ArrivesBehindTaken(s, t, order, IsComplete(more, count), decode);
    }
  }

  lemma LeftIsAll(p: Progress, count: nat)
    requires !IsComplete(p, count)
    ensures Left(p, count) == p
  {
  }

  lemma RoomIsKept(t: Transport, id: u64)
    requires id in t.assemblies
    ensures HasRoom(t, id)
  {
  }

  lemma ArrivesBehindReplay(s: Sealing, t: Transport, order: seq<nat>, decode: Decoder)
    requires CanSeal(s) && order != [] && order[0] < ChunkCount(s.content.message)
    requires !Acceptable(t.accepted, t.highest, s.first + order[0]) && Arrives(s, t, order[1..], decode)
    ensures Arrives(s, t, order, decode)
  {
    hide Take, ChunkCount;
  }

  lemma ArrivesBehindTaken(s: Sealing, t: Transport, order: seq<nat>, complete: bool, decode: Decoder)
    requires CanSeal(s) && order != [] && order[0] < ChunkCount(s.content.message)
    requires decode(s.content.message).Some?
    requires Acceptable(t.accepted, t.highest, s.first + order[0])
    requires var (next, r) := Take(t, PacketOfSealing(s, order[0]), decode);
             r == Outcome(s, complete, decode) && (!complete ==> Arrives(s, next, order[1..], decode))
    ensures Arrives(s, t, order, decode)
  {
    hide Take, ChunkCount, PacketOfSealing, Acceptable;
  }

  /** A new sealing passes the filter in every order that stays inside the window. */
  lemma NewPasses(s: Sealing, t: Transport, p: Progress, order: seq<nat>, count: nat)
    requires Newer(s, t, 0)
    ensures Passes(s, t, p, order, count)
  {
  }

  lemma ShortIsInWindow(order: seq<nat>, count: nat)
    requires Brings(order, count) && count <= REPLAY_WINDOW_BITS
    ensures InWindow(order)
  {
  }

  function UpFrom(j: nat, count: nat): (order: seq<nat>)
    requires j <= count
    ensures |order| == count - j && forall i :: 0 <= i < |order| ==> order[i] == j + i
  {
    seq(count - j, i requires 0 <= i => j + i)
  }

  lemma UpFromBrings(count: nat)
    ensures Brings(UpFrom(0, count), count)
  {
    forall k: nat | k < count ensures k in UpFrom(0, count) { assert UpFrom(0, count)[k] == k; }
  }

  /** All packets accepted so far are older than packet `j` of the sealing. */
  predicate Newer(s: Sealing, t: Transport, j: nat) {
    IsHighest(t.accepted, t.highest) && forall counter :: counter in t.accepted ==> counter < s.first + j
  }

  /** Bytes charged for what is no longer, or never was, held leave too little for the rest of the message. */
  predicate Overcharged(c: Content, a: Accumulated) {
    && a.stateId == c.stateId && a.bound == MAXIMUM_REASSEMBLED_BYTES && Agrees(a, c.message)
    && !HoldsAll(a, c.message) && a.totalBytes + |c.message| - StoredBytes(a) > a.bound
  }

  lemma OverchargedPush(c: Content, a: Accumulated, f: Fragment)
    requires CanSend(c) && Overcharged(c, a) && FragmentOf(f, c.message, c.stateId)
    ensures var (next, r) := Pushed(a, f); r.Err? || (r == Ok(None) && Overcharged(c, next))
  {
    PushAgreeing(a, f, c.message);
    var next := Pushed(a, f).0;
    hide Pushed, Agrees, StoredBytes, FragmentAt, ChunkCount, HoldsAll;
    if HasRoomFor(a, f.header.index, f.body) {
      if f.header.index in a.fragments { SameIndices(a, next, c.message); }
      if HoldsAll(next, c.message) { AllIsWholeLength(next, c.message); }
    }
  }

  lemma SameIndices(a: Accumulated, next: Accumulated, message: seq<byte>)
    requires next.fragments.Keys == a.fragments.Keys
    ensures HoldsAll(next, message) <==> HoldsAll(a, message)
  {
    hide ChunkCount;
    assert forall i :: i in next.fragments.Keys <==> i in a.fragments.Keys;
  }

  lemma {:induction false} OverchargedFails(s: Sealing, t: Transport, j: nat, decode: Decoder)
    requires CanSeal(s) && j <= ChunkCount(s.content.message) && Newer(s, t, j) && HasRoom(t, s.content.stateId)
    requires Overcharged(s.content, Assembly(t, s.content.stateId))
    ensures !Arrives(s, t, UpFrom(j, ChunkCount(s.content.message)), decode)
    decreases ChunkCount(s.content.message) - j
  {
    hide Take, Overcharged, ChunkCount, PacketOfSealing, Newer, Acceptable, HasRoom, Assembly;
    var count := ChunkCount(s.content.message);
    if j < count {
      OverchargedStep(s, t, j, decode);
      var (next, r) := Take(t, PacketOfSealing(s, j), decode);
      assert UpFrom(j, count)[1..] == UpFrom(j + 1, count);
      if r.Ok? { OverchargedFails(s, next, j + 1, decode); }
    }
  }

  lemma OverchargedStep(s: Sealing, t: Transport, j: nat, decode: Decoder)
    requires CanSeal(s) && j < ChunkCount(s.content.message) && Newer(s, t, j) && HasRoom(t, s.content.stateId)
    requires Overcharged(s.content, Assembly(t, s.content.stateId))
    ensures Acceptable(t.accepted, t.highest, s.first + j)
    ensures var (next, r) := Take(t, PacketOfSealing(s, j), decode);
            r.Err? || (r.value.update.None? && Newer(s, next, j + 1) && HasRoom(next, s.content.stateId)
                       && Overcharged(s.content, Assembly(next, s.content.stateId)))
  {
    hide Pushed, Overcharged, ChunkCount, PacketOfSealing, FragmentOfSealing, Take, Reached, Assemble;
    OursIsAssembled(s, t, j, decode);
    ReachedIsSame(s, t, j);
    var reached := Reached(s, t, j);
    ReachedIsNewest(s, t, j);
    AssembleOvercharged(s, reached, j, decode);
    AssembleLeavesRest(reached, FragmentOfSealing(s, j), decode, s.content.stateId);
  }

  lemma ReachedIsNewest(s: Sealing, t: Transport, j: nat)
    requires CanSeal(s) && j < ChunkCount(s.content.message) && Newer(s, t, j)
    ensures Acceptable(t.accepted, t.highest, s.first + j) && Newer(s, Reached(s, t, j), j + 1)
  {
    hide ChunkCount;
  }

  lemma AssembleOvercharged(s: Sealing, t: Transport, j: nat, decode: Decoder)
    requires CanSeal(s) && j < ChunkCount(s.content.message) && HasRoom(t, s.content.stateId)
    requires Overcharged(s.content, Assembly(t, s.content.stateId))
    ensures var (next, r) := Assemble(t, FragmentOfSealing(s, j), decode);
            r.Err? || (r.value.update.None? && HasRoom(next, s.content.stateId)
                       && Overcharged(s.content, Assembly(next, s.content.stateId)))
  {
    hide Pushed, Overcharged, ChunkCount, FragmentOfSealing;
    FragmentIsOurs(s, j);
    OverchargedPush(s.content, Assembly(t, s.content.stateId), FragmentOfSealing(s, j));
  }

  lemma ClashFails(s: Sealing, t: Transport, order: seq<nat>, decode: Decoder)
    requires CanSeal(s) && Newer(s, t, 0) && HasRoom(t, s.content.stateId)
    requires order != [] && order[0] < ChunkCount(s.content.message)
    requires Pushed(Assembly(t, s.content.stateId), FragmentOfSealing(s, order[0])).1.Err?
    ensures !Arrives(s, t, order, decode)
  {
    hide Pushed, Take, ChunkCount, PacketOfSealing, FragmentOfSealing;
    OursIsAssembled(s, t, order[0], decode);
    FragmentIsOurs(s, order[0]);
    assert Assembly(Reached(s, t, order[0]), s.content.stateId) == Assembly(t, s.content.stateId);
  }

  lemma CompatibleArrivesWhole(s: Sealing, t: Transport, order: seq<nat>, decode: Decoder)
    requires CanSeal(s) && Newer(s, t, 0) && HasRoom(t, s.content.stateId) && decode(s.content.message).Some?
    requires Agreeing(s.content, t) && Brings(order, ChunkCount(s.content.message)) && InWindow(order)
    ensures Arrives(s, t, order, decode)
  {
    hide Arrives, Agreeing, Assembly, InWindow;
    var p, count := ProgressOf(Assembly(t, s.content.stateId)), ChunkCount(s.content.message);
    assert 0 in order && count - 1 in order;
    NewPasses(s, t, p, order, count);
    hide Passes;
    CompatibleArrives(s, t, order, decode);
  }

  /** A covering order in which what is held refuses a packet. */
  lemma IncompatibleFails(s: Sealing, t: Transport, decode: Decoder) returns (order: seq<nat>)
    requires CanSeal(s) && Newer(s, t, 0) && HasRoom(t, s.content.stateId)
    requires Assembly(t, s.content.stateId).stateId == s.content.stateId
    requires Assembly(t, s.content.stateId).bound == MAXIMUM_REASSEMBLED_BYTES
    requires !Compatible(Assembly(t, s.content.stateId), s.content.message)
    ensures Brings(order, ChunkCount(s.content.message)) && !Arrives(s, t, order, decode)
  {
    hide Arrives, Newer, StoredBytes, HoldsAll, Assembly, Pushed, FragmentOfSealing;
    var a, count := Assembly(t, s.content.stateId), ChunkCount(s.content.message);
    UpFromBrings(count);
    if !Agrees(a, s.content.message) {
      var clash: nat := ClashingFragment(a, s.content.message);
      FragmentIsOurs(s, clash);
      order := [clash] + UpFrom(0, count);
      assert Brings(order, count) by { assert forall k: nat :: k in UpFrom(0, count) ==> k in order; }
      ClashFails(s, t, order, decode);
    } else {
      order := UpFrom(0, count);
      OverchargedFails(s, t, 0, decode);
    }
  }

  /** The new sealing arrives in whatever order its packets come, as long as each comes. */
  ghost predicate ArrivesAnyhow(s: Sealing, t: Transport, decode: Decoder)
    requires CanSeal(s)
  {
    forall order :: Brings(order, ChunkCount(s.content.message)) ==> Arrives(s, t, order, decode)
  }

  /**
   The exact condition on what a number may already hold: a new sealing of at most as many
   packets as the replay window is wide arrives in every order of its packets, repetitions
   included, exactly when the bodies held are those of the message, the final index known is its
   own, and the bytes still missing fit. A longer one then arrives in every order that stays
   inside the window, and otherwise too there is an order in which what is held refuses it.
   */
  lemma SealingArrivesIff(s: Sealing, t: Transport, decode: Decoder)
    requires CanSeal(s) && Newer(s, t, 0) && HasRoom(t, s.content.stateId) && decode(s.content.message).Some?
    requires Assembly(t, s.content.stateId).stateId == s.content.stateId
    requires Assembly(t, s.content.stateId).bound == MAXIMUM_REASSEMBLED_BYTES
    ensures ChunkCount(s.content.message) <= REPLAY_WINDOW_BITS ==>
              (ArrivesAnyhow(s, t, decode) <==> Compatible(Assembly(t, s.content.stateId), s.content.message))
    ensures !Compatible(Assembly(t, s.content.stateId), s.content.message) ==> !ArrivesAnyhow(s, t, decode)
    ensures Compatible(Assembly(t, s.content.stateId), s.content.message) ==>
              forall order :: Brings(order, ChunkCount(s.content.message)) && InWindow(order) ==>
                Arrives(s, t, order, decode)
  {
    hide Arrives, Newer, Compatible, Assembly, Brings, InWindow, ChunkCount;
    var a, count := Assembly(t, s.content.stateId), ChunkCount(s.content.message);
    if Compatible(a, s.content.message) {
      forall order | Brings(order, count) && (InWindow(order) || count <= REPLAY_WINDOW_BITS)
        ensures Arrives(s, t, order, decode)
      {
        if count <= REPLAY_WINDOW_BITS { ShortIsInWindow(order, count); }
        CompatibleArrivesWhole(s, t, order, decode);
      }
    } else {
      var order := IncompatibleFails(s, t, decode);
    }
  }

  /** For an update of one packet: what is held may only be that very body, not known to be followed by more. */
  lemma OnePacketArrivesIff(s: Sealing, t: Transport, decode: Decoder)
    requires CanSeal(s) && ChunkCount(s.content.message) == 1 && decode(s.content.message).Some?
    requires Acceptable(t.accepted, t.highest, s.first) && HasRoom(t, s.content.stateId)
    requires Assembly(t, s.content.stateId).stateId == s.content.stateId
    requires Assembly(t, s.content.stateId).bound == MAXIMUM_REASSEMBLED_BYTES
    ensures var a := Assembly(t, s.content.stateId);
            Take(t, PacketOfSealing(s, 0), decode).1 == Ok(Receipt(s.sent, s.echoed, decode(s.content.message)))
            <==> OnlyHolds(a, s.content.message)
  {
    hide Take, Pushed, Acceptable, FragmentOfSealing, PacketOfSealing, StoredBytes, Reached, Chunk, ChunkCount,
         Assemble;
    OursIsAssembled(s, t, 0, decode);
    ReachedIsSame(s, t, 0);
    var a := Assembly(t, s.content.stateId);
    OnePacketPush(s, a);
    AssembleOne(s, Reached(s, t, 0), decode);
  }

  lemma AssembleOne(s: Sealing, t: Transport, decode: Decoder)
    requires CanSeal(s) && HasRoom(t, s.content.stateId) && decode(s.content.message).Some?
    ensures var pushed := Pushed(Assembly(t, s.content.stateId), FragmentOfSealing(s, 0)).1;
            && (pushed == Ok(Some(s.content.message)) ==>
                  Assemble(t, FragmentOfSealing(s, 0), decode).1
                    == Ok(Receipt(s.sent, s.echoed, decode(s.content.message))))
            && (pushed.Err? ==> Assemble(t, FragmentOfSealing(s, 0), decode).1.Err?)
  {
    FragmentIsOurs(s, 0);
    hide Pushed;
  }

  predicate OnlyHolds(a: Accumulated, message: seq<byte>) {
    && (forall i :: i in a.fragments ==> i == 0 && a.fragments[i] == message)
    && a.finalIndex in {None, Some(0)}
    && (a.fragments == map[] ==> a.totalBytes + |message| <= MAXIMUM_REASSEMBLED_BYTES)
  }

  lemma OnlyHoldsAgrees(a: Accumulated, message: seq<byte>)
    requires ChunkCount(message) == 1 && a.bound == MAXIMUM_REASSEMBLED_BYTES
    ensures OnlyHolds(a, message) <==> Agrees(a, message) && HasRoomFor(a, 0, message)
    ensures Agrees(a, message) ==> Chunk(message, 0) == message
  {
    hide ChunkCount, Chunk;
    WholeChunk(message);
    EmptyOrFirst(a);
    if OnlyHolds(a, message) { assert ChunksOf(a.fragments, message); }
    if Agrees(a, message) {
      forall i | i in a.fragments ensures i == 0 && a.fragments[i] == message {}
      assert forall i :: i in a.fragments ==> i == 0;
      assert OnlyHolds(a, message) <==> a.fragments != map[] || a.totalBytes + |message| <= MAXIMUM_REASSEMBLED_BYTES;
    }
  }

  lemma EmptyOrFirst(a: Accumulated)
    ensures (forall i :: i in a.fragments ==> i == 0) ==> (a.fragments == map[] <==> 0 !in a.fragments)
  {
    if 0 !in a.fragments && forall i :: i in a.fragments ==> i == 0 {
      assert a.fragments.Keys == {};
    }
  }

  lemma OnePacketPush(s: Sealing, a: Accumulated)
    requires CanSeal(s) && ChunkCount(s.content.message) == 1
    requires a.stateId == s.content.stateId && a.bound == MAXIMUM_REASSEMBLED_BYTES
    ensures var r := Pushed(a, FragmentOfSealing(s, 0)).1;
            if OnlyHolds(a, s.content.message) then r == Ok(Some(s.content.message)) else r.Err?
  {
    var message := s.content.message;
    FragmentIsOurs(s, 0);
    var f := FragmentOfSealing(s, 0);
    assert f.body == Chunk(message, 0) && f.header.isFinal;
    hide Pushed, FragmentOfSealing, StoredBytes, FragmentAt, OnlyHolds, Agrees, Chunk, HasRoomFor, FragmentOf;
    OnlyHoldsAgrees(a, message);
    if Agrees(a, message) {
      PushAgreeing(a, f, message);
      OnlyIndexIsAll(Pushed(a, f).0, message);
    } else {
      var clash := ClashingFragment(a, message);
      assert FragmentOf(f, message, a.stateId) && f.header.index == clash;
    }
  }

  lemma OnlyIndexIsAll(a: Accumulated, message: seq<byte>)
    requires ChunkCount(message) == 1
    ensures IsWhole(a, message) <==> a.finalIndex.Some? && 0 in a.fragments.Keys
  {
    if 0 in a.fragments.Keys {
      forall i: FragmentIndex | i < ChunkCount(message) ensures i in a.fragments { assert i == 0; }
    }
  }

  lemma WholeChunk(message: seq<byte>)
    requires ChunkCount(message) == 1
    ensures Chunk(message, 0) == message
  {
  }

  /** Two zeros-only fragments under number one, of which the first arrives, and then a complete update under it. */
  function Long(): Sealing {
    Sealing(Content(seq(MAX_FRAGMENT_BODY_BYTES + 1, _ => 0), 1), 0, 0, 0)
  }

  function Short(): Sealing {
    Sealing(Content([1], 1), 0, 0, 2)
  }

  /**
   A number used for another message while its fragments are outstanding: all of the update arrives
   and is refused.
   */
  lemma ReusedNumberRefuses(decode: Decoder)
    ensures CanSeal(Long()) && CanSeal(Short()) && ChunkCount(Short().content.message) == 1
    ensures var t := Take(Transport({}, None, map[], None), PacketOfSealing(Long(), 0), decode).0;
            Take(t, PacketOfSealing(Short(), 0), decode).1 == Err(Framing(ConflictingDuplicate))
  {
    hide Take, Pushed, FragmentOfSealing, PacketOfSealing;
    LongThenShort();
    var start := Transport({}, None, map[], None);
    OursIsAssembled(Long(), start, 0, decode);
    var t := Reached(Long(), start, 0).(assemblies := map[1 := HoldsZeros()]);
    FragmentIsOurs(Long(), 0);
    FragmentIsOurs(Short(), 0);
    assert Take(start, PacketOfSealing(Long(), 0), decode).0 == t;
    OursIsAssembled(Short(), t, 0, decode);
  }

  function HoldsZeros(): Accumulated {
    Empty(1).(fragments := map[0 := Chunk(Long().content.message, 0)], totalBytes := MAX_FRAGMENT_BODY_BYTES)
  }

  lemma LongThenShort()
    ensures CanSeal(Long()) && CanSeal(Short()) && ChunkCount(Short().content.message) == 1
    ensures Pushed(Empty(1), FragmentOfSealing(Long(), 0)) == (HoldsZeros(), Ok(None))
    ensures Pushed(HoldsZeros(), FragmentOfSealing(Short(), 0)).1 == Err(ConflictingDuplicate)
  {
    assert |Chunk(Long().content.message, 0)| == MAX_FRAGMENT_BODY_BYTES;
  }
}
