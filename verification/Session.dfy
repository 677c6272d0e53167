/**
 The client protocol object. Its log is trimmed and its marks rebased on every
 acknowledgement; it refines the untrimmed sender and the generic receiver.
 */
module Session {
  import opened Prelude
  import opened Wire
  import opened Sender
  import R = Receiver

  /** Marks moved by the length of what was trimmed away. */
  function Shifted(marks: seq<Mark>, offset: nat): (r: seq<Mark>)
    ensures |r| == |marks|
    ensures forall i :: 0 <= i < |marks| ==> r[i] == Mark(marks[i].id, marks[i].end + offset)
  {
    seq(|marks|, i requires 0 <= i < |marks| => Mark(marks[i].id, marks[i].end + offset))
  }

  lemma {:induction false} PositionShifts(marks: seq<Mark>, offset: nat, id: u64)
    ensures Position(Shifted(marks, offset), id) == Position(marks, id)
  {
    if marks != [] {
      PositionShifts(marks[1..], offset, id);
      assert Shifted(marks, offset)[1..] == Shifted(marks[1..], offset);
    }
  }

  lemma {:induction false} ThinnedShifts(marks: seq<Mark>, offset: nat)
    ensures Thinned(Shifted(marks, offset)) == Shifted(Thinned(marks), offset)
    decreases |marks|
  {
    if |marks| > MAXIMUM_SENT_STATES {
      var index := |marks| - NEWEST_KEPT;
      ThinnedShifts(Without(marks, index), offset);
      assert Without(Shifted(marks, offset), index) == Shifted(Without(marks, index), offset);
    } else {
      assert Thinned(Shifted(marks, offset)) == Shifted(marks, offset);
    }
  }

  lemma ShiftedAppend(marks: seq<Mark>, mark: Mark, offset: nat)
    ensures Shifted(marks + [mark], offset) == Shifted(marks, offset) + [Mark(mark.id, mark.end + offset)]
  {
  }

  lemma ShiftedDrop(marks: seq<Mark>, offset: nat, index: nat)
    requires index <= |marks|
    ensures Shifted(marks[index..], offset) == Shifted(marks, offset)[index..]
  {
  }

  /** Subtracts what was just trimmed from every mark. */
  method Rebase(marks: seq<Mark>, amount: nat) returns (rebased: seq<Mark>)
    requires forall i :: 0 <= i < |marks| ==> amount <= marks[i].end
    ensures |rebased| == |marks| && Shifted(rebased, amount) == marks
  {
    rebased := [];
    for i := 0 to |marks|
      invariant |rebased| == i
      invariant forall k :: 0 <= k < i ==> rebased[k] == Mark(marks[k].id, marks[k].end - amount)
    {
      rebased := rebased + [Mark(marks[i].id, marks[i].end - amount)];
    }
  }

  lemma ShiftedTwice(marks: seq<Mark>, a: nat, b: nat)
    ensures Shifted(Shifted(marks, a), b) == Shifted(marks, b + a)
  {
  }

  lemma ShiftedByNothing(marks: seq<Mark>)
    ensures Shifted(marks, 0) == marks
  {
  }

  lemma NothingBeforeKept(marks: seq<Mark>, length: nat, index: nat)
    requires Trimmed(marks, length) && index < |marks|
    ensures marks[index].end <= length && forall i :: index <= i < |marks| ==> marks[index].end <= marks[i].end
  {
  }

  method FindMark(marks: seq<Mark>, id: u64) returns (r: Option<nat>)
    ensures r == Position(marks, id)
  {
    for index := 0 to |marks|
      invariant forall i :: 0 <= i < index ==> marks[i].id != id
    {
      if marks[index].id == id { return Some(index); }
    }
    return None;
  }

  /** Why a batch cannot be sent, if it cannot: no room in the trimmed log's index type, or encoding fails. */
  function SendRefusal(s: Sender, batch: seq<Instruction>, encodes: bool): Option<R.SessionError>
    requires s.marks != [] && Front(s).end <= |s.log|
  {
    if |s.log| - Front(s).end + |batch| > USIZE_MAX then Some(R.StateExhausted)
    else if !encodes then Some(R.EncodingFailed)
    else None
  }

  /** Marks over a trimmed log of `length` instructions: the confirmed one at zero, the newest at the end. */
  predicate Trimmed(marks: seq<Mark>, length: nat) {
    && 1 <= |marks| <= MAXIMUM_SENT_STATES
    && marks[0].end == 0 && marks[|marks| - 1].end == length
    && (forall i, j :: 0 <= i < j < |marks| ==> marks[i].end <= marks[j].end)
  }

  /** The untrimmed sender behind a trimmed log and its marks. */
  function Untrimmed(confirmed: seq<Instruction>, log: seq<Instruction>, marks: seq<Mark>, next: u64,
                     ends: map<u64, nat>): Sender {
    Sender(confirmed + log, Shifted(marks, |confirmed|), next, ends)
  }

  lemma SendingKeepsTrimmed(marks: seq<Mark>, length: nat, mark: Mark)
    requires Trimmed(marks, length) && mark.end >= length
    ensures Trimmed(Thinned(marks + [mark]), mark.end)
  {
    EndsStayOrdered(marks + [mark]);
  }

  lemma SendingRefines(confirmed: seq<Instruction>, log: seq<Instruction>, marks: seq<Mark>, next: u64,
                       ends: map<u64, nat>,
                       batch: seq<Instruction>, target: u64)
    ensures var kept := Thinned(marks + [Mark(target, |log| + |batch|)]);
            var end := |confirmed| + |log| + |batch|;
            Untrimmed(confirmed, log + batch, kept, next, ends[target := end])
            == Sent(Untrimmed(confirmed, log, marks, next, ends), batch, target)
  {
    var mark := Mark(target, |log| + |batch|);
    ThinnedShifts(marks + [mark], |confirmed|);
    ShiftedAppend(marks, mark, |confirmed|);
    Associate(confirmed, log, batch);
  }

  lemma RebasedEnds(marks: seq<Mark>, index: nat, rebased: seq<Mark>)
    requires index < |marks| && Shifted(rebased, marks[index].end) == marks[index..]
    ensures |rebased| == |marks| - index
    ensures forall i :: 0 <= i < |rebased| ==> rebased[i].end + marks[index].end == marks[index + i].end
  {
    var moved := Shifted(rebased, marks[index].end);
    assert |moved| == |marks| - index;
    forall i | 0 <= i < |rebased|
      ensures rebased[i].end + marks[index].end == marks[index + i].end
    {
      assert moved[i] == marks[index..][i];
    }
  }

  lemma AcknowledgingKeepsTrimmed(marks: seq<Mark>, length: nat, index: nat, rebased: seq<Mark>)
    requires Trimmed(marks, length) && index < |marks|
    requires Shifted(rebased, marks[index].end) == marks[index..]
    ensures marks[index].end <= length && Trimmed(rebased, length - marks[index].end)
  {
    RebasedEnds(marks, index, rebased);
    hide Shifted;
    var last := |rebased| - 1;
    assert rebased[last].end + marks[index].end == marks[index + last].end;
    forall i, j | 0 <= i < j < |rebased| ensures rebased[i].end <= rebased[j].end {
      assert rebased[j].end + marks[index].end == marks[index + j].end;
      assert marks[index + i].end <= marks[index + j].end;
    }
  }

  lemma AcknowledgingRefines(confirmed: seq<Instruction>, log: seq<Instruction>, marks: seq<Mark>, next: u64,
                             ends: map<u64, nat>,
                             id: u64, index: nat, rebased: seq<Mark>)
    requires Position(marks, id) == Some(index) && marks[index].end <= |log|
    requires Shifted(rebased, marks[index].end) == marks[index..]
    ensures var end := marks[index].end;
            Untrimmed(confirmed + log[..end], log[end..], rebased, next, ends)
            == Acknowledged(Untrimmed(confirmed, log, marks, next, ends), id)
  {
    var end := marks[index].end;
    PositionShifts(marks, |confirmed|, id);
    ShiftedDrop(marks, |confirmed|, index);
    ShiftedTwice(rebased, end, |confirmed|);
    SplitAt(log, end);
    Associate(confirmed, log[..end], log[end..]);
    assert |confirmed + log[..end]| == |confirmed| + end;
  }

  lemma SplitAt<T>(s: seq<T>, n: nat)
    requires n <= |s|
    ensures s[..n] + s[n..] == s
  {
  }

  class ClientProtocol<S(!new)> {
    const rules: R.Rules<S>
    var nextLocalState: u64
    var latestRemoteState: u64
    var localInstructions: seq<Instruction>
    var sentStates: seq<Mark>              // ends count from the start of localInstructions
    var receivedStates: map<u64, S>
    var deliveredRemoteState: S
    var remoteThrowawayFloor: u64
    ghost var confirmed: seq<Instruction>  // what acknowledgements have trimmed from the log
    ghost var ends: map<u64, nat>

    ghost predicate Valid()
      reads this
    {
      Trimmed(sentStates, |localInstructions|)
    }

    /** The untrimmed sender this object stands for. */
    ghost function Local(): Sender
      reads this
    {
      Untrimmed(confirmed, localInstructions, sentStates, nextLocalState, ends)
    }

    ghost function Remote(): R.Receiver<S>
      reads this
    {
      R.Receiver(receivedStates, remoteThrowawayFloor, latestRemoteState, deliveredRemoteState)
    }

    constructor (rules: R.Rules<S>, initial: S)
      ensures this.rules == rules && Valid() && Local() == NEW && Remote() == R.New(initial)
    {
      this.rules := rules;
      nextLocalState, latestRemoteState, remoteThrowawayFloor := 1, 0, 0;
      localInstructions, sentStates := [], [Mark(0, 0)];
      receivedStates, deliveredRemoteState := map[0 := initial], initial;
      confirmed, ends := [], map[0 := 0];
    }

    method LimitSentStates()
      requires sentStates != []
      modifies this`sentStates
      ensures sentStates == Thinned(old(sentStates))
    {
      while |sentStates| > MAXIMUM_SENT_STATES
        invariant Thinned(sentStates) == Thinned(old(sentStates))
        decreases |sentStates|
      {
        var removalIndex := |sentStates| - NEWEST_KEPT;
        sentStates := sentStates[..removalIndex] + sentStates[removalIndex + 1..];
      }
    }

    /** Encodes and records one more state; nothing changes when it cannot be sent. */
    method BuildStateUpdate(batch: seq<Instruction>, target: u64, encodes: bool)
      returns (r: Result<StateUpdate, R.SessionError>)
      requires Valid()
      modifies this`localInstructions, this`sentStates, this`ends
      ensures Valid()
      ensures match SendRefusal(old(Local()), batch, encodes)
                   case None => r.Ok?
                   case Some(error) => r == Err(error)
      ensures Local() == if r.Ok? then Sent(old(Local()), batch, target) else old(Local())
      ensures r.Ok? ==> r.value == FreshUpdate(old(Local()), batch, target, latestRemoteState)
    {
      hide Thinned;
      var baseState := sentStates[|sentStates| - 1].id;
      var discardBefore := sentStates[0].id;
      var instructionEnd := |localInstructions| + |batch|;
      if instructionEnd > USIZE_MAX {
        return Err(R.StateExhausted);
      }
      var update := StateUpdate(baseState, target, latestRemoteState, discardBefore, batch);
      if !encodes {
        return Err(R.EncodingFailed);
      }
      SendingKeepsTrimmed(sentStates, |localInstructions|, Mark(target, instructionEnd));
      SendingRefines(confirmed, localInstructions, sentStates, nextLocalState, ends, batch, target);
      localInstructions := localInstructions + batch;
      sentStates := sentStates + [Mark(target, instructionEnd)];
      LimitSentStates();
      ends := ends[target := |confirmed| + instructionEnd];
      return Ok(update);
    }

    method BuildUpdate(batch: seq<Instruction>, encodes: bool) returns (r: Result<StateUpdate, R.SessionError>)
      requires Valid()
      modifies this`localInstructions, this`sentStates, this`ends, this`nextLocalState
      ensures Valid()
      ensures if old(Local()).next == SHUTDOWN_STATE then r == Err(R.StateExhausted)
              else match SendRefusal(old(Local()), batch, encodes)
                   case None => r.Ok?
                   case Some(error) => r == Err(error)
      ensures Local() == if r.Ok? then Sent(old(Local()), batch, old(Local()).next).(next := old(Local()).next + 1)
                         else old(Local())
      ensures r.Ok? ==> r.value == FreshUpdate(old(Local()), batch, old(Local()).next, latestRemoteState)
    {
      var targetState := nextLocalState;
      if targetState == U64_MAX {
        return Err(R.StateExhausted);
      }
      r := BuildStateUpdate(batch, targetState, encodes);
      if r.Ok? {
        nextLocalState := targetState + 1;
      }
    }

    method BuildShutdown(batch: seq<Instruction>, encodes: bool) returns (r: Result<StateUpdate, R.SessionError>)
      requires Valid()
      modifies this`localInstructions, this`sentStates, this`ends
      ensures Valid()
      ensures if ShutdownSent(old(Local())) then r == Err(R.ShutdownAlreadySent)
              else match SendRefusal(old(Local()), batch, encodes)
                   case None => r.Ok?
                   case Some(error) => r == Err(error)
      ensures Local() == if r.Ok? then Sent(old(Local()), batch, SHUTDOWN_STATE) else old(Local())
      ensures r.Ok? ==> r.value == FreshUpdate(old(Local()), batch, SHUTDOWN_STATE, latestRemoteState)
    {
      if sentStates[|sentStates| - 1].id == U64_MAX {
        return Err(R.ShutdownAlreadySent);
      }
      r := BuildStateUpdate(batch, U64_MAX, encodes);
    }

    method BuildShutdownAck(encodes: bool) returns (r: Result<StateUpdate, R.SessionError>)
      requires Valid()
      ensures r == if !ShutdownAcknowledged(Local()) then Err(R.ShutdownNotAcknowledged)
                   else if !encodes then Err(R.EncodingFailed) else Ok(ShutdownAck(latestRemoteState))
    {
      if sentStates[0].id != U64_MAX {
        return Err(R.ShutdownNotAcknowledged);
      }
      if !encodes { return Err(R.EncodingFailed); }
      return Ok(StateUpdate(U64_MAX, U64_MAX, latestRemoteState, U64_MAX, []));
    }

    method BuildAcknowledgement(encodes: bool) returns (r: Result<StateUpdate, R.SessionError>)
      requires Valid()
      ensures r == if encodes then Ok(Heartbeat(Local(), latestRemoteState)) else Err(R.EncodingFailed)
    {
      var localState := sentStates[|sentStates| - 1].id;
      if !encodes { return Err(R.EncodingFailed); }
      return Ok(StateUpdate(localState, localState, latestRemoteState, sentStates[0].id, []));
    }

    /** Rebuilds everything unconfirmed from the trimmed log. */
    method RetransmitPending(encodes: bool) returns (r: Result<StateUpdate, R.SessionError>)
      requires Valid()
      ensures !Pending(Local()) ==> r == Err(R.NoPendingUpdate)
      ensures Pending(Local()) && !encodes ==> r == Err(R.EncodingFailed)
      ensures Pending(Local()) && encodes ==> r.Ok?
      ensures r.Ok? ==> Front(Local()).end <= Back(Local()).end <= |Local().log|
      ensures r.Ok? ==> r.value == Retransmission(Local(), latestRemoteState)
    {
      if |sentStates| <= 1 {
        return Err(R.NoPendingUpdate);
      }
      var front, back := sentStates[0], sentStates[|sentStates| - 1];
      var instructions := localInstructions[front.end..back.end];
      if !encodes { return Err(R.EncodingFailed); }
      assert instructions == Local().log[Front(Local()).end..Back(Local()).end];
      return Ok(StateUpdate(front.id, back.id, latestRemoteState, front.id, instructions));
    }

    method ProcessAcknowledgement(id: u64)
      requires Valid()
      modifies this`localInstructions, this`sentStates, this`confirmed
      ensures Valid()
      ensures Local() == Acknowledged(old(Local()), id)
    {
      hide Position, Trimmed;
      PositionShifts(sentStates, |confirmed|, id);
      var found := FindMark(sentStates, id);
      if found.None? { return; }
      var kept := sentStates[found.value..];
      var confirmedEnd := kept[0].end;
      NothingBeforeKept(sentStates, |localInstructions|, found.value);
      var rebased := kept;
      ShiftedByNothing(kept);
      if confirmedEnd != 0 {
        rebased := Rebase(kept, confirmedEnd);
      }
      AcknowledgingKeepsTrimmed(sentStates, |localInstructions|, found.value, rebased);
      AcknowledgingRefines(confirmed, localInstructions, sentStates, nextLocalState, ends, id, found.value, rebased);
      confirmed := confirmed + localInstructions[..confirmedEnd];
      localInstructions := localInstructions[confirmedEnd..];
      sentStates := rebased;
    }

    /** Prunes, stores and delivers a remote state; the rule itself is `Receiver.Accept`. */
    method AcceptRemoteUpdate(u: StateUpdate) returns (r: Result<(bool, StateUpdate), R.SessionError>)
      modifies this`receivedStates, this`remoteThrowawayFloor, this`latestRemoteState, this`deliveredRemoteState
      ensures (Remote(), r) == R.Accept(rules, old(Remote()), u)
    {
      if u.target in receivedStates {
        return Ok((false, u));
      }
      if u.discardBefore > u.base || u.target <= u.base {
        return Err(R.InvalidStateTransition);
      }
      if u.base !in receivedStates {
        return Ok((false, u));
      }
      var applied := rules.apply(rules.copy(receivedStates[u.base]), u.delta);
      if applied.Err? {
        return Err(R.State(applied.error));
      }
      var floor := Max(remoteThrowawayFloor, u.discardBefore);
      receivedStates := R.Pruned(receivedStates, floor);
      remoteThrowawayFloor := floor;
      if |receivedStates| >= R.MAXIMUM_RECEIVED_STATES {
        return Err(R.TooManyRemoteStates);
      }
      receivedStates := receivedStates[u.target := rules.copy(applied.value)];
      if u.target <= latestRemoteState {
        return Ok((false, u));
      }
      var diff := rules.diff(applied.value, deliveredRemoteState);
      if diff.None? {
        return Ok((false, u));
      }
      latestRemoteState := u.target;
      deliveredRemoteState := applied.value;
      return Ok((true, u.(delta := diff.value)));
    }

    /** The tail of `ingest_packet`: the acknowledgement is processed even when the update is refused. */
    method Ingest(u: StateUpdate) returns (r: Result<(bool, StateUpdate), R.SessionError>)
      requires Valid()
      modifies this
      ensures Valid() && Local() == Acknowledged(old(Local()), u.acknowledged)
      ensures (Remote(), r) == R.Accept(rules, old(Remote()), u)
    {
      ProcessAcknowledgement(u.acknowledged);
      r := AcceptRemoteUpdate(u);
    }

    method SetInitialRemote(initial: S)
      modifies this`receivedStates, this`deliveredRemoteState
      ensures Remote() == R.Rebaselined(old(Remote()), initial)
    {
      if latestRemoteState != 0 || |receivedStates| != 1 { return; }
      receivedStates := receivedStates[0 := initial];
      deliveredRemoteState := initial;
    }
  }

  lemma {:induction false} EndsStayOrdered(marks: seq<Mark>)
    requires marks != []
    requires forall i, j :: 0 <= i < j < |marks| ==> marks[i].end <= marks[j].end
    ensures var kept := Thinned(marks);
            && kept != [] && kept[0] == marks[0] && kept[|kept| - 1] == marks[|marks| - 1]
            && (forall i, j :: 0 <= i < j < |kept| ==> kept[i].end <= kept[j].end)
    decreases |marks|
  {
    if |marks| > MAXIMUM_SENT_STATES { EndsStayOrdered(Without(marks, |marks| - NEWEST_KEPT)); }
  }
}
