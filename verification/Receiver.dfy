/**
 The receiving half: which states are retained, and when an update advances.
 The rule is generic in what a state is.
 */
module Receiver {
  import opened Prelude
  import opened Wire
  import RemoteState

  const MAXIMUM_RECEIVED_STATES := 1024

  datatype SessionError =
    | StateExhausted | ShutdownAlreadySent | ShutdownNotAcknowledged | NoPendingUpdate
    | InvalidStateTransition | TooManyRemoteStates | EncodingFailed | State(error: RemoteState.StateError)

  /** What the rule needs of a state: copying it, applying a batch, and the effects beyond a delivered state. */
  datatype Rules<!S> = Rules(
    copy: S -> S,
    apply: (S, seq<Instruction>) -> Result<S, RemoteState.StateError>,
    diff: (S, S) -> Option<seq<Instruction>>)

  datatype Receiver<S> = Receiver(received: map<u64, S>, floor: u64, latest: u64, delivered: S)

  function New<S>(initial: S): Receiver<S> {
    Receiver(map[0 := initial], 0, 0, initial)
  }

  /** The states that survive raising the floor. */
  function Pruned<S>(received: map<u64, S>, floor: u64): (kept: map<u64, S>)
    ensures forall id :: id in kept <==> id in received && id >= floor
    ensures forall id :: id in kept ==> kept[id] == received[id]
    ensures |kept| <= |received|
  {
    var kept := map id | id in received && id >= floor :: received[id];
    SubsetSize(kept.Keys, received.Keys);
    kept
  }

  lemma SubsetSize<T>(a: set<T>, b: set<T>)
    requires a <= b
    ensures |a| <= |b|
  {
    assert b == a + (b - a);
  }

  /** The state an update leads to, when its base is retained and the batch applies. */
  function Target<S>(rules: Rules<S>, r: Receiver<S>, u: StateUpdate): Result<S, RemoteState.StateError>
    requires u.base in r.received
  {
    rules.apply(rules.copy(r.received[u.base]), u.delta)
  }

  /** `accept_remote_update`: the new retention, and whether the update advanced and with what effects. */
  function Accept<S>(rules: Rules<S>, r: Receiver<S>, u: StateUpdate)
    : (Receiver<S>, Result<(bool, StateUpdate), SessionError>)
  {
    if u.target in r.received then (r, Ok((false, u)))
    else if u.discardBefore > u.base || u.target <= u.base then (r, Err(InvalidStateTransition))
    else if u.base !in r.received then (r, Ok((false, u)))
    else
      match Target(rules, r, u)
      case Err(error) => (r, Err(State(error)))
      case Ok(target) =>
        var floor := Max(r.floor, u.discardBefore);
        var pruned := r.(received := Pruned(r.received, floor), floor := floor);
        if |pruned.received| >= MAXIMUM_RECEIVED_STATES then (pruned, Err(TooManyRemoteStates))
        else
          var stored := pruned.(received := pruned.received[u.target := rules.copy(target)]);
          if u.target <= r.latest then (stored, Ok((false, u)))
          else
            match rules.diff(target, r.delivered)
            case None => (stored, Ok((false, u)))
            case Some(effects) =>
              (stored.(latest := u.target, delivered := target), Ok((true, u.(delta := effects))))
  }

  /** `set_initial_remote_viewport`: replaces the blank baseline while it is still all there is. */
  function Rebaselined<S>(r: Receiver<S>, initial: S): Receiver<S> {
    if r.latest != 0 || |r.received| != 1 then r
    else r.(received := r.received[0 := initial], delivered := initial)
  }

  // ---- Retention ------------------------------------------------------------

  predicate Valid<S>(r: Receiver<S>) {
    && (forall id :: id in r.received ==> id >= r.floor)
    && |r.received| <= MAXIMUM_RECEIVED_STATES
  }

  /** Whether the update got as far as pruning: it is new, well formed, its base is retained, its batch applies. */
  predicate Reaches<S>(rules: Rules<S>, r: Receiver<S>, u: StateUpdate) {
    && u.target !in r.received && u.discardBefore <= u.base < u.target && u.base in r.received
    && Target(rules, r, u).Ok?
  }

  /**
   Every update keeps retention sound: ids at or above the floor, at most 1,024 of
   them, floor and latest never falling, no held state reinterpreted, and the base
   of an update that gets applied outlives the pruning it causes.
   */
  lemma AcceptKeepsRetention<S>(rules: Rules<S>, r: Receiver<S>, u: StateUpdate)
    requires Valid(r)
    ensures var next := Accept(rules, r, u).0;
            && Valid(next) && r.floor <= next.floor && r.latest <= next.latest
            && (forall id :: id in r.received && id in next.received ==> next.received[id] == r.received[id])
            && (Reaches(rules, r, u) ==> u.base in next.received && next.floor == Max(r.floor, u.discardBefore))
            && (!Reaches(rules, r, u) ==> next == r)
  {
  }

  /** Whatever is held afterwards was held before or is a copy of the target; what is delivered likewise. */
  lemma AcceptAddsOnlyTarget<S>(rules: Rules<S>, r: Receiver<S>, u: StateUpdate)
    ensures var next := Accept(rules, r, u).0;
            && (forall id :: id in next.received ==>
                  || (id in r.received && next.received[id] == r.received[id])
                  || (id == u.target && Reaches(rules, r, u)
                      && next.received[id] == rules.copy(Target(rules, r, u).value)))
            && (|| (next.latest == r.latest && next.delivered == r.delivered)
                || (Reaches(rules, r, u) && next.latest == u.target > r.latest
                    && next.delivered == Target(rules, r, u).value))
  {
  }

  /** How many states are left above the floor, and above what the peer no longer needs. */
  ghost function Surviving<S>(r: Receiver<S>, discardBefore: u64): nat {
    |set id | id in r.received && r.floor <= id && discardBefore <= id|
  }

  lemma PrunedSurvive<S>(r: Receiver<S>, discardBefore: u64)
    ensures |Pruned(r.received, Max(r.floor, discardBefore))| == Surviving(r, discardBefore)
  {
    var survivors := set id | id in r.received && r.floor <= id && discardBefore <= id;
    assert Pruned(r.received, Max(r.floor, discardBefore)).Keys == survivors;
  }

  /**
   What becomes of an update, by what is known of it. A state already held, or one built on a base that is not,
   is passed over; an impossible transition, a batch that does not apply and a 1,025th state are refused;
   everything else is stored, and delivered if it is the newest and can be reached from what was delivered.
   */
  lemma OutcomeIff<S>(rules: Rules<S>, r: Receiver<S>, u: StateUpdate)
    ensures var (next, outcome) := Accept(rules, r, u);
            var passedOver := u.target in r.received || (u.discardBefore <= u.base < u.target && u.base !in r.received);
            var room := Surviving(r, u.discardBefore) < 1024;
            && (passedOver ==> next == r && outcome == Ok((false, u)))
            && (outcome == Err(InvalidStateTransition)
                <==> u.target !in r.received && (u.base < u.discardBefore || u.target <= u.base))
            && (outcome == Err(TooManyRemoteStates) <==> Reaches(rules, r, u) && !room)
            && (outcome.Err? && outcome.error.State? <==> !passedOver && u.discardBefore <= u.base < u.target
                                                          && Target(rules, r, u).Err?)
            && (outcome.Ok? <==> passedOver || (Reaches(rules, r, u) && room))
            && (outcome.Ok? && !passedOver ==>
                && next.received.Keys
                   == (set id | id in r.received && r.floor <= id && u.discardBefore <= id) + {u.target}
                && (outcome.value.0 <==> r.latest < u.target
                                         && rules.diff(Target(rules, r, u).value, r.delivered).Some?))
  {
    PrunedSurvive(r, u.discardBefore);
  }

  /** Only an update that is applied advances, and it says so; it then delivers its target, by way of a difference. */
  lemma AdvanceIsReached<S>(rules: Rules<S>, r: Receiver<S>, u: StateUpdate)
    ensures var (next, outcome) := Accept(rules, r, u);
            && (next.latest != r.latest <==> outcome.Ok? && outcome.value.0)
            && (next.latest != r.latest ==>
                && Reaches(rules, r, u) && next.delivered == Target(rules, r, u).value
                && rules.diff(next.delivered, r.delivered) == Some(outcome.value.1.delta))
            && (next.latest == r.latest ==> next.delivered == r.delivered)
  {
    hide Pruned;
  }

  lemma LatestNeverFalls<S>(rules: Rules<S>, r: Receiver<S>, u: StateUpdate)
    ensures r.latest <= Accept(rules, r, u).0.latest
  {
    hide Pruned, Target;
  }

  /** What an accepted update reports is its own target. */
  lemma TargetIsKept<S>(rules: Rules<S>, r: Receiver<S>, u: StateUpdate)
    ensures Accept(rules, r, u).1.Ok? ==> Accept(rules, r, u).1.value.1.target == u.target
  {
    hide Pruned, Target;
  }

  /** An id dropped by pruning never comes back: an update can only name targets above a retained base. */
  lemma PrunedIdsStayGone<S>(rules: Rules<S>, r: Receiver<S>, u: StateUpdate, id: u64)
    requires Valid(r) && id !in r.received && id < r.floor
    ensures id !in Accept(rules, r, u).0.received
  {
  }

  // ---- Runs -----------------------------------------------------------------

  datatype Operation<S> = Update(update: StateUpdate) | Rebaseline(initial: S)

  function Performed<S>(rules: Rules<S>, r: Receiver<S>, op: Operation<S>): Receiver<S> {
    match op
    case Update(u) => Accept(rules, r, u).0
    case Rebaseline(initial) => Rebaselined(r, initial)
  }

  function After<S>(rules: Rules<S>, r: Receiver<S>, ops: seq<Operation<S>>): Receiver<S>
    decreases ops
  {
    if ops == [] then r else After(rules, Performed(rules, r, ops[0]), ops[1..])
  }

  /** Nothing but the baseline is held. */
  predicate Pristine<S>(r: Receiver<S>) {
    |r.received| == 1
  }

  /** What every receiver satisfies: a raised floor leaves an update's base and target, no floor leaves state zero. */
  predicate Inv<S>(r: Receiver<S>) {
    && Valid(r)
    && (r.floor > 0 ==> |r.received| >= 2)
    && (r.floor == 0 ==> 0 in r.received && r.latest in r.received)
  }

  lemma NewInv<S>(initial: S)
    ensures Inv(New(initial)) && Pristine(New(initial))
  {
  }

  lemma HoldsBoth<T>(s: set<T>, a: T, b: T)
    requires a in s && b in s && a != b
    ensures |s| >= 2
  {
    SubsetSize({a, b}, s);
  }

  lemma HoldsOne<T>(s: set<T>, a: T)
    requires a in s && |s| == 1
    ensures s == {a}
  {
    if b :| b in s && b != a { HoldsBoth(s, a, b); }
  }

  lemma AcceptKeepsInv<S>(rules: Rules<S>, r: Receiver<S>, u: StateUpdate)
    requires Inv(r)
    ensures Inv(Accept(rules, r, u).0)
    ensures !Pristine(r) ==> !Pristine(Accept(rules, r, u).0)
  {
    var next := Accept(rules, r, u).0;
    AcceptKeepsRetention(rules, r, u);
    if Reaches(rules, r, u) {
      if u.target in next.received { HoldsBoth(next.received.Keys, u.base, u.target); }
    }
  }

  /** A receiver holding one state holds the baseline, so the guard on the latest state never decides. */
  lemma PristineIsBaseline<S>(r: Receiver<S>)
    requires Inv(r) && Pristine(r)
    ensures r.received.Keys == {0} && r.floor == 0 && r.latest == 0
  {
    HoldsOne(r.received.Keys, 0);
  }

  lemma RebaselinedIs<S>(r: Receiver<S>, initial: S)
    requires Inv(r)
    ensures Rebaselined(r, initial) == if Pristine(r) then New(initial) else r
  {
    if Pristine(r) {
      PristineIsBaseline(r);
      assert r.received[0 := initial] == map[0 := initial];
    }
  }

  /** Updates and new baselines alike keep retention sound, and what is not pristine stays so. */
  lemma PerformedKeepsInv<S>(rules: Rules<S>, r: Receiver<S>, op: Operation<S>)
    requires Inv(r)
    ensures var next := Performed(rules, r, op);
            Inv(next) && r.floor <= next.floor && r.latest <= next.latest && (!Pristine(r) ==> !Pristine(next))
  {
    match op {
      case Update(u) =>
        AcceptKeepsRetention(rules, r, u);
        AcceptKeepsInv(rules, r, u);
      case Rebaseline(initial) =>
        RebaselinedIs(r, initial);
        NewInv(initial);
        if Pristine(r) { PristineIsBaseline(r); }
    }
  }

  /**
   An operation makes a held id mean another state exactly when it brings another
   baseline while the baseline is all there is, and the id is then zero.
   */
  lemma ReinterpretsIff<S>(rules: Rules<S>, r: Receiver<S>, op: Operation<S>, id: u64)
    requires Inv(r) && id in r.received && id in Performed(rules, r, op).received
    ensures Performed(rules, r, op).received[id] != r.received[id] <==>
            id == 0 && Pristine(r) && op.Rebaseline? && op.initial != r.received[id]
  {
    match op {
      case Update(u) => AcceptKeepsRetention(rules, r, u);
      case Rebaseline(initial) =>
        RebaselinedIs(r, initial);
        if Pristine(r) { PristineIsBaseline(r); }
    }
  }

  /**
   Over any run of updates and new baselines from any reachable receiver, an id means the
   same state at every moment it is held, state zero from the moment something else is held.
   Ids go only by the floor passing them, and never come back.
   */
  lemma {:induction false} NeverReinterpreted<S>(rules: Rules<S>, r: Receiver<S>, ops: seq<Operation<S>>, id: u64)
    requires Inv(r)
    ensures var later := After(rules, r, ops);
            && Inv(later) && r.floor <= later.floor && r.latest <= later.latest
            && (id in r.received && id in later.received && (id != 0 || !Pristine(r)) ==>
                later.received[id] == r.received[id])
            && (id in r.received && id !in later.received ==> id < later.floor)
            && (id !in r.received && id < r.floor ==> id !in later.received)
    decreases ops
  {
    if ops != [] {
      var next := Performed(rules, r, ops[0]);
      PerformedKeepsInv(rules, r, ops[0]);
      KeepsIds(rules, r, ops[0], id);
      if id in r.received && id in next.received { ReinterpretsIff(rules, r, ops[0], id); }
      NeverReinterpreted(rules, next, ops[1..], id);
    }
  }

  lemma KeepsIds<S>(rules: Rules<S>, r: Receiver<S>, op: Operation<S>, id: u64)
    requires Inv(r)
    ensures var next := Performed(rules, r, op);
            && (id in r.received && id !in next.received ==> id < next.floor)
            && (id !in r.received && id < r.floor ==> id !in next.received)
  {
    match op {
      case Update(u) => if id !in r.received && id < r.floor { PrunedIdsStayGone(rules, r, u, id); }
      case Rebaseline(initial) => RebaselinedIs(r, initial);
    }
  }
}
