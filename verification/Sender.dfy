/**
 The sending half of state synchronisation, in its simple form: one log of all
 input that is never trimmed, and marks that name prefixes of it.
 */
module Sender {
  import opened Prelude
  import opened Wire

  const MAXIMUM_SENT_STATES := 32
  // Thinning removes the mark that has this many marks from it to the newest, inclusive.
  const NEWEST_KEPT := 16

  /** State `id` stands for the first `end` instructions of the log. */
  datatype Mark = Mark(id: u64, end: nat)

  /** `ends` remembers the prefix of every id ever sent, also of those whose marks are gone. */
  datatype Sender = Sender(log: seq<Instruction>, marks: seq<Mark>, next: u64, ends: map<u64, nat>)

  const NEW := Sender([], [Mark(0, 0)], 1, map[0 := 0])

  function Front(s: Sender): Mark
    requires s.marks != []
  {
    s.marks[0]
  }

  function Back(s: Sender): Mark
    requires s.marks != []
  {
    s.marks[|s.marks| - 1]
  }

  predicate Pending(s: Sender) {
    |s.marks| > 1
  }

  predicate ShutdownSent(s: Sender)
    requires s.marks != []
  {
    Back(s).id == SHUTDOWN_STATE
  }

  predicate ShutdownAcknowledged(s: Sender)
    requires s.marks != []
  {
    Front(s).id == SHUTDOWN_STATE
  }

  /** `limit_sent_states`: thins the middle, keeping the confirmed front and the newest marks. */
  function Thinned<M>(marks: seq<M>): (kept: seq<M>)
    ensures |kept| == Min(|marks|, MAXIMUM_SENT_STATES)
  {
    if |marks| <= MAXIMUM_SENT_STATES then marks
    else Thinned(Without(marks, |marks| - NEWEST_KEPT))
  }

  function Without<M>(s: seq<M>, index: nat): (r: seq<M>)
    requires index < |s|
    ensures |r| == |s| - 1
    ensures forall k :: 0 <= k < |r| ==> r[k] == s[if k < index then k else k + 1]
  {
    s[..index] + s[index + 1..]
  }

  /** `batch` appended to the log and marked as `target`. */
  function Sent(s: Sender, batch: seq<Instruction>, target: u64): Sender {
    var end := |s.log| + |batch|;
    s.(log := s.log + batch, marks := Thinned(s.marks + [Mark(target, end)]), ends := s.ends[target := end])
  }

  /** The position of the mark with this id. */
  function Position(marks: seq<Mark>, id: u64): (r: Option<nat>)
    ensures r.Some? ==> r.value < |marks| && marks[r.value].id == id
    ensures r.None? ==> forall i :: 0 <= i < |marks| ==> marks[i].id != id
    ensures r.Some? ==> forall i :: 0 <= i < r.value ==> marks[i].id != id
  {
    if marks == [] then None
    else if marks[0].id == id then Some(0)
    else match Position(marks[1..], id) { case None => None case Some(i) => Some(i + 1) }
  }

  /** An acknowledgement of a mark drops the marks before it; of anything else, nothing. */
  function Acknowledged(s: Sender, id: u64): Sender {
    match Position(s.marks, id)
    case None => s
    case Some(index) => s.(marks := s.marks[index..])
  }

  // ---- Updates --------------------------------------------------------------

  function FreshUpdate(s: Sender, batch: seq<Instruction>, target: u64, acknowledged: u64): StateUpdate
    requires s.marks != []
  {
    StateUpdate(Back(s).id, target, acknowledged, Front(s).id, batch)
  }

  /** Everything not yet confirmed, rebuilt from the confirmed state. */
  function Retransmission(s: Sender, acknowledged: u64): StateUpdate
    requires s.marks != [] && Front(s).end <= Back(s).end <= |s.log|
  {
    StateUpdate(Front(s).id, Back(s).id, acknowledged, Front(s).id, s.log[Front(s).end..Back(s).end])
  }

  function Heartbeat(s: Sender, acknowledged: u64): StateUpdate
    requires s.marks != []
  {
    StateUpdate(Back(s).id, Back(s).id, acknowledged, Front(s).id, [])
  }

  function ShutdownAck(acknowledged: u64): StateUpdate {
    StateUpdate(SHUTDOWN_STATE, SHUTDOWN_STATE, acknowledged, SHUTDOWN_STATE, [])
  }

  // ---- Invariant ------------------------------------------------------------

  predicate Ordered(marks: seq<Mark>) {
    forall i, j :: 0 <= i < j < |marks| ==> marks[i].id < marks[j].id && marks[i].end <= marks[j].end
  }

  /** Every mark agrees with what its id stands for. */
  predicate Agree(marks: seq<Mark>, ends: map<u64, nat>) {
    forall i :: 0 <= i < |marks| ==> marks[i].id in ends && ends[marks[i].id] == marks[i].end
  }

  /** Greater ids stand for longer prefixes, and `top` is the greatest of them. */
  predicate Monotone(ends: map<u64, nat>, top: Mark) {
    && (forall a, b :: a in ends && b in ends && a <= b ==> ends[a] <= ends[b])
    && (forall id :: id in ends ==> id <= top.id && ends[id] <= top.end)
  }

  predicate Valid(s: Sender) {
    && 1 <= |s.marks| <= MAXIMUM_SENT_STATES
    && Ordered(s.marks)
    && Agree(s.marks, s.ends)
    && Monotone(s.ends, Back(s))
    && Back(s).end == |s.log|
    && (forall id :: id in s.ends ==> id < s.next || id == SHUTDOWN_STATE)
    && s.next >= 1
  }

  /** `u` carries exactly the log between the prefixes its base and target stand for. */
  predicate Carries(s: Sender, u: StateUpdate) {
    && u.base in s.ends && u.target in s.ends && u.discardBefore in s.ends
    && u.discardBefore <= u.base
    && s.ends[u.base] <= s.ends[u.target] <= |s.log|
    && u.delta == s.log[s.ends[u.base]..s.ends[u.target]]
  }

  /** Nothing already said is taken back: the log only grows, and prefixes keep their meaning. */
  predicate Extends(s: Sender, later: Sender) {
    s.log <= later.log && s.ends.Keys <= later.ends.Keys && forall id :: id in s.ends ==> later.ends[id] == s.ends[id]
  }

  /** What thinning keeps of a list of marks: its order, its ends, and only marks that were there. */
  predicate KeepsEnds(marks: seq<Mark>, kept: seq<Mark>) {
    && marks != [] && kept != []
    && kept[0] == marks[0] && kept[|kept| - 1] == marks[|marks| - 1]
    && (forall m :: m in kept ==> m in marks)
  }

  lemma WithoutKeepsEnds(marks: seq<Mark>, index: nat)
    requires Ordered(marks) && 0 < index < |marks| - 1
    ensures Ordered(Without(marks, index)) && KeepsEnds(marks, Without(marks, index))
  {
  }

  lemma {:induction false} ThinnedKeepsEnds(marks: seq<Mark>)
    requires Ordered(marks) && marks != []
    ensures Ordered(Thinned(marks)) && KeepsEnds(marks, Thinned(marks))
    decreases |marks|
  {
    if |marks| > MAXIMUM_SENT_STATES {
      WithoutKeepsEnds(marks, |marks| - NEWEST_KEPT);
      ThinnedKeepsEnds(Without(marks, |marks| - NEWEST_KEPT));
    }
  }

  lemma ThinnedOnce(marks: seq<Mark>)
    requires |marks| == 33
    ensures Thinned(marks) == marks[..17] + marks[18..]
  {
    assert Without(marks, 17) == marks[..17] + marks[18..];
  }

  /** The marks after sending some more states, none of them acknowledged. */
  function Grown(marks: seq<Mark>, more: seq<Mark>): seq<Mark> {
    if more == [] then marks else Thinned(Grown(marks, more[..|more| - 1]) + [more[|more| - 1]])
  }

  /** However many states are sent, those still known are the 17 oldest and the 15 newest, or all if that is fewer. */
  lemma {:induction false} GrownKeeps(marks: seq<Mark>, more: seq<Mark>)
    requires |marks| <= 32
    ensures var all := marks + more;
            Grown(marks, more) == if |all| <= 32 then all else all[..17] + all[|all| - 15..]
  {
    hide Thinned;
    if more == [] {
      assert marks + more == marks;
    } else {
      var n := |more| - 1;
      GrownKeeps(marks, more[..n]);
      var front, last := marks + more[..n], more[n];
      assert marks + more == front + [last];
      var before := Grown(marks, more[..n]) + [last];
      if |front| >= 32 {
        assert |front| == 32 ==> front == front[..17] + front[17..];
        ThinnedOnce(before);
        assert before[..17] + before[18..] == (front + [last])[..17] + (front + [last])[|front| - 14..];
      } else {
        FewAreKept(before);
      }
    }
  }

  lemma FewAreKept(marks: seq<Mark>)
    requires |marks| <= 32
    ensures Thinned(marks) == marks
  {
  }

  lemma AgreeAfterThinning(marks: seq<Mark>, kept: seq<Mark>, ends: map<u64, nat>)
    requires Agree(marks, ends) && KeepsEnds(marks, kept)
    ensures Agree(kept, ends)
  {
    forall i | 0 <= i < |kept| ensures kept[i].id in ends && ends[kept[i].id] == kept[i].end {
      assert kept[i] in marks;
    }
  }

  lemma MarksAfterSending(s: Sender, mark: Mark)
    requires Valid(s) && mark.id > Back(s).id && mark.end >= Back(s).end
    ensures var marks, ends := Thinned(s.marks + [mark]), s.ends[mark.id := mark.end];
            Ordered(marks) && Agree(marks, ends) && KeepsEnds(s.marks + [mark], marks)
  {
    var marks, ends := s.marks + [mark], s.ends[mark.id := mark.end];
    assert Ordered(marks) by {
      forall i | 0 <= i < |s.marks| ensures marks[i].id <= Back(s).id && marks[i].end <= Back(s).end {}
    }
    assert Agree(marks, ends) by {
      forall i | 0 <= i < |s.marks| ensures marks[i] == s.marks[i] && marks[i].id != mark.id {}
    }
    ThinnedKeepsEnds(marks);
    AgreeAfterThinning(marks, Thinned(marks), ends);
  }

  lemma EndsAfterSending(s: Sender, mark: Mark)
    requires Valid(s) && mark.id > Back(s).id && mark.end >= Back(s).end
    ensures Monotone(s.ends[mark.id := mark.end], mark) && mark.id !in s.ends
  {
  }

  lemma SentIsValid(s: Sender, batch: seq<Instruction>, target: u64)
    requires Valid(s) && target > Back(s).id && (target < s.next || target == SHUTDOWN_STATE)
    ensures Valid(Sent(s, batch, target)) && Extends(s, Sent(s, batch, target))
    ensures Front(Sent(s, batch, target)) == Front(s)
    ensures Back(Sent(s, batch, target)) == Mark(target, |s.log| + |batch|)
  {
    hide Ordered, Agree, Monotone, Thinned;
    var mark := Mark(target, |s.log| + |batch|);
    MarksAfterSending(s, mark);
    EndsAfterSending(s, mark);
    var next := Sent(s, batch, target);
    assert (s.marks + [mark])[0] == Front(s) && (s.marks + [mark])[|s.marks|] == mark;
    assert Front(next) == Front(s) && Back(next) == mark;
  }

  lemma AcknowledgedIsValid(s: Sender, id: u64)
    requires Valid(s)
    ensures Valid(Acknowledged(s, id)) && Extends(s, Acknowledged(s, id))
    ensures Back(Acknowledged(s, id)) == Back(s) && Front(s).id <= Front(Acknowledged(s, id)).id
  {
  }

  lemma CarriesStays(s: Sender, later: Sender, u: StateUpdate)
    requires Carries(s, u) && Extends(s, later)
    ensures Carries(later, u)
  {
    SliceOfPrefix(s.log, later.log, s.ends[u.base], s.ends[u.target]);
  }

  lemma SliceOfPrefix<T>(a: seq<T>, b: seq<T>, lo: nat, hi: nat)
    requires a <= b && lo <= hi <= |a|
    ensures a[lo..hi] == b[lo..hi]
  {
    assert a == b[..|a|];
  }

  lemma FreshCarries(s: Sender, batch: seq<Instruction>, target: u64, acknowledged: u64)
    requires Valid(s) && target > Back(s).id && (target < s.next || target == SHUTDOWN_STATE)
    ensures Carries(Sent(s, batch, target), FreshUpdate(s, batch, target, acknowledged))
  {
    SentIsValid(s, batch, target);
    DropPrefix(s.log, batch);
  }

  // ---- Runs -----------------------------------------------------------------

  /** What can happen to a sender; a fresh state is only built while shutdown has not been sent. */
  datatype Action =
    | Fresh(batch: seq<Instruction>)
    | Shutdown(batch: seq<Instruction>)
    | Retransmit
    | Beat
    | AcknowledgeShutdown
    | Acknowledge(id: u64)

  predicate Enabled(s: Sender, action: Action)
    requires s.marks != []
  {
    match action
    case Fresh(_) => !ShutdownSent(s) && s.next != SHUTDOWN_STATE
    case Shutdown(_) => !ShutdownSent(s)
    case Retransmit => Pending(s)
    case Beat => true
    case AcknowledgeShutdown => ShutdownAcknowledged(s)
    case Acknowledge(_) => true
  }

  /** One action; `remote` is the remote state acknowledged by whatever is sent. */
  function Act(s: Sender, action: Action, remote: u64): (r: (Sender, Option<StateUpdate>))
    requires Valid(s)
  {
    if !Enabled(s, action) then (s, None)
    else
      match action
      case Fresh(batch) =>
        (Sent(s, batch, s.next).(next := s.next + 1), Some(FreshUpdate(s, batch, s.next, remote)))
      case Shutdown(batch) =>
        (Sent(s, batch, SHUTDOWN_STATE), Some(FreshUpdate(s, batch, SHUTDOWN_STATE, remote)))
      case Retransmit => (s, Some(Retransmission(s, remote)))
      case Beat => (s, Some(Heartbeat(s, remote)))
      case AcknowledgeShutdown => (s, Some(ShutdownAck(remote)))
      case Acknowledge(id) => (Acknowledged(s, id), None)
  }

  /** What every action guarantees about the sender after it and the update it sends. */
  predicate Sound(s: Sender, next: Sender, update: Option<StateUpdate>) {
    && Valid(next) && Extends(s, next)
    && (s.marks != [] ==> Front(s).id <= Front(next).id)
    && (update.Some? ==> Carries(next, update.value) && update.value.discardBefore == Front(next).id)
  }

  /** Every action keeps the sender valid, only extends what was said, and sends a slice of the log. */
  lemma ActIsSound(s: Sender, action: Action, remote: u64)
    requires Valid(s)
    ensures Sound(s, Act(s, action, remote).0, Act(s, action, remote).1)
  {
    if Enabled(s, action) {
      match action {
        case Fresh(batch) => FreshActIsSound(s, batch, remote);
        case Shutdown(batch) => SendIsSound(s, batch, SHUTDOWN_STATE, remote);
        case Acknowledge(id) => AcknowledgedIsValid(s, id);
        case _ => RepeatIsSound(s, remote);
      }
    }
  }

  lemma BumpedIsValid(s: Sender)
    requires Valid(s) && s.next != SHUTDOWN_STATE
    ensures Valid(s.(next := s.next + 1))
    ensures !ShutdownSent(s) ==> Back(s).id < s.next
  {
    hide Ordered, Monotone;
  }

  lemma FreshActIsSound(s: Sender, batch: seq<Instruction>, remote: u64)
    requires Valid(s) && Enabled(s, Fresh(batch))
    ensures Sound(s, Act(s, Fresh(batch), remote).0, Act(s, Fresh(batch), remote).1)
  {
    hide Ordered, Agree, Monotone, Carries, Thinned;
    BumpedIsValid(s);
    SendIsSound(s.(next := s.next + 1), batch, s.next, remote);
  }

  lemma SendIsSound(s: Sender, batch: seq<Instruction>, target: u64, remote: u64)
    requires Valid(s) && target > Back(s).id && (target < s.next || target == SHUTDOWN_STATE)
    ensures var next := Sent(s, batch, target);
            && Valid(next) && Extends(s, next) && Front(next) == Front(s)
            && Carries(next, FreshUpdate(s, batch, target, remote))
  {
    SentIsValid(s, batch, target);
    FreshCarries(s, batch, target, remote);
  }

  lemma RepeatIsSound(s: Sender, remote: u64)
    requires Valid(s)
    ensures Carries(s, Retransmission(s, remote)) && Carries(s, Heartbeat(s, remote))
    ensures ShutdownAcknowledged(s) ==> Carries(s, ShutdownAck(remote))
  {
  }

  /** The sender after a run, and every update it sent along the way. */
  function Run(actions: seq<(Action, u64)>): (r: (Sender, seq<StateUpdate>))
    ensures Valid(r.0)
  {
    if actions == [] then (NEW, [])
    else
      var (s, updates) := Run(actions[..|actions| - 1]);
      var (action, remote) := actions[|actions| - 1];
      ActIsSound(s, action, remote);
      var (next, update) := Act(s, action, remote);
      (next, updates + if update.Some? then [update.value] else [])
  }

  predicate AllCarry(s: Sender, updates: seq<StateUpdate>) {
    forall k :: 0 <= k < |updates| ==> Carries(s, updates[k])
  }

  lemma AllCarryStays(s: Sender, later: Sender, updates: seq<StateUpdate>)
    requires AllCarry(s, updates) && Extends(s, later)
    ensures AllCarry(later, updates)
  {
    forall k | 0 <= k < |updates| ensures Carries(later, updates[k]) {
      CarriesStays(s, later, updates[k]);
    }
  }

  /**
   Whatever was drained, rebased or thinned along the way, every update a run
   ever sent carries exactly the slice of the one log that its ids delimit.
   */
  lemma {:induction false} EveryUpdateIsASlice(actions: seq<(Action, u64)>)
    ensures var (s, updates) := Run(actions); AllCarry(s, updates)
  {
    if actions != [] {
      var n := |actions| - 1;
      EveryUpdateIsASlice(actions[..n]);
      var (before, earlier) := Run(actions[..n]);
      var (s, updates) := Run(actions);
      ActIsSound(before, actions[n].0, actions[n].1);
      AllCarryStays(before, s, earlier);
    }
  }

  /** What an action adds to the log. */
  function Added(s: Sender, action: Action): seq<Instruction>
    requires s.marks != []
  {
    if !Enabled(s, action) then []
    else match action { case Fresh(batch) => batch case Shutdown(batch) => batch case _ => [] }
  }

  lemma LogGrows(s: Sender, action: Action, remote: u64)
    requires Valid(s)
    ensures Act(s, action, remote).0.log == s.log + Added(s, action)
  {
  }

  /** The input a run was given, in order. */
  function Input(actions: seq<(Action, u64)>): seq<Instruction> {
    if actions == [] then []
    else
      var n := |actions| - 1;
      Input(actions[..n]) + Added(Run(actions[..n]).0, actions[n].0)
  }

  /** The log is exactly the accepted input, nothing lost, repeated or reordered. */
  lemma {:induction false} LogIsInput(actions: seq<(Action, u64)>)
    ensures Run(actions).0.log == Input(actions)
  {
    if actions != [] {
      var n := |actions| - 1;
      LogIsInput(actions[..n]);
      LogGrows(Run(actions[..n]).0, actions[n].0, actions[n].1);
    }
  }

  /**
   `build_update` itself does not look for a shutdown state: building a fresh
   state keeps the sender valid exactly when shutdown has not been sent yet.
   */
  lemma FreshNeedsOpenSender(s: Sender, batch: seq<Instruction>)
    requires Valid(s) && s.next != SHUTDOWN_STATE
    ensures Valid(Sent(s, batch, s.next).(next := s.next + 1)) <==> !ShutdownSent(s)
  {
    hide Ordered, Agree, Monotone, Carries, Thinned;
    if ShutdownSent(s) {
      LateFreshIsUnordered(s, Mark(s.next, |s.log| + |batch|));
    } else {
      BumpedIsValid(s);
      SendIsSound(s.(next := s.next + 1), batch, s.next, 0);
    }
  }

  lemma LateFreshIsUnordered(s: Sender, mark: Mark)
    requires Valid(s) && ShutdownSent(s) && mark.id != SHUTDOWN_STATE
    ensures !Ordered(Thinned(s.marks + [mark]))
  {
    hide Monotone, Agree, Thinned;
    KeepsNewest(s.marks + [mark]);
    var after := Thinned(s.marks + [mark]);
    assert after[|after| - 2].id > after[|after| - 1].id;
  }

  /** Thinning keeps the two newest marks next to each other. */
  lemma {:induction false} KeepsNewest(marks: seq<Mark>)
    requires |marks| >= 2
    ensures var kept := Thinned(marks);
            |kept| >= 2 && kept[|kept| - 2] == marks[|marks| - 2] && kept[|kept| - 1] == marks[|marks| - 1]
    decreases |marks|
  {
    if |marks| > MAXIMUM_SENT_STATES { KeepsNewest(Without(marks, |marks| - NEWEST_KEPT)); }
  }
}
