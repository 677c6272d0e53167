/** What the host is told to do, over whole runs of remote updates. */
module HostEffects {
  import opened Prelude
  import opened Wire
  import opened Operations
  import opened RemoteState
  import R = Receiver
  import Sender

  /** The receive rule over reconstructed terminals. */
  function TerminalRules(t: Terminal): R.Rules<Remote> {
    R.Rules(
      s => Copy(t, s),
      (s, batch) => Applied(t, s, batch),
      (target, delivered) =>
        match Difference(t, target, delivered) { case Ok(batch) => Some(batch) case Err(_) => None })
  }

  type Client = R.Receiver<Remote>

  function Step(t: Terminal, c: Client, u: StateUpdate): (Client, Result<(bool, StateUpdate), R.SessionError>) {
    R.Accept(TerminalRules(t), c, u)
  }

  /** The host effects one update delivers: those of the difference if it advances, else none. */
  function Delivered(t: Terminal, c: Client, u: StateUpdate): seq<Symbol> {
    var outcome := Step(t, c, u).1;
    if outcome.Ok? && outcome.value.0 then Effects(outcome.value.1.delta) else []
  }

  /** The client after a run of updates, and everything the host was told, concatenated. */
  function Run(t: Terminal, c: Client, updates: seq<StateUpdate>): (Client, seq<Symbol>) {
    if updates == [] then (c, [])
    else
      var (before, told) := Run(t, c, updates[..|updates| - 1]);
      var last := updates[|updates| - 1];
      (Step(t, before, last).0, told + Delivered(t, before, last))
  }

  function Told(s: Remote): seq<Symbol> {
    Flatten(s.history.operations)
  }

  /** An update that advances by way of a screen diff instead of the missing part of the history. */
  predicate UsesScreenDiff(t: Terminal, c: Client, u: StateUpdate) {
    var next := Step(t, c, u).0;
    next.latest != c.latest && !(Told(c.delivered) <= Told(next.delivered))
  }

  predicate NeverUsesScreenDiff(t: Terminal, c: Client, updates: seq<StateUpdate>) {
    forall i :: 0 <= i < |updates| ==> !UsesScreenDiff(t, Run(t, c, updates[..i]).0, updates[i])
  }

  lemma DeliveredCompletes(t: Terminal, c: Client, u: StateUpdate)
    requires !UsesScreenDiff(t, c, u)
    ensures Told(c.delivered) + Delivered(t, c, u) == Told(Step(t, c, u).0.delivered)
  {
    var (next, outcome) := Step(t, c, u);
    if outcome.Ok? && outcome.value.0 {
      DifferenceCompletes(t, next.delivered, c.delivered);
    } else {
      assert Told(c.delivered) + [] == Told(c.delivered);
    }
  }

  /**
   Over any run of updates, honest or not and rebuilt from whichever bases, the
   host has been told exactly the history of the state last delivered: nothing
   repeated, lost or reordered. Only an advance by screen diff is outside this.
   */
  lemma {:induction false} HostHearsHistoryOnce(t: Terminal, c: Client, updates: seq<StateUpdate>)
    requires NeverUsesScreenDiff(t, c, updates)
    ensures var (later, told) := Run(t, c, updates); Told(c.delivered) + told == Told(later.delivered)
  {
    if updates == [] {
      assert Told(c.delivered) + [] == Told(c.delivered);
    } else {
      var n := |updates| - 1;
      forall i | 0 <= i < n ensures !UsesScreenDiff(t, Run(t, c, updates[..n][..i]).0, updates[..n][i]) {
        assert updates[..n][..i] == updates[..i];
      }
      HostHearsHistoryOnce(t, c, updates[..n]);
      var (before, told) := Run(t, c, updates[..n]);
      DeliveredCompletes(t, before, updates[n]);
      Associate(Told(c.delivered), told, Delivered(t, before, updates[n]));
    }
  }

  /** Where that history still replays to the screen, the host's terminal shows the delivered screen. */
  lemma HostShowsScreen(t: Terminal, size: Size, updates: seq<StateUpdate>)
    requires NeverUsesScreenDiff(t, R.New(New(t, size)), updates)
    ensures var (later, told) := Run(t, R.New(New(t, size)), updates);
            Replayable(t, later.delivered) && later.delivered.initial == size ==>
            t.ReplaySymbols(t.blank(size), told) == later.delivered.screen
  {
    var start := R.New(New(t, size));
    HostHearsHistoryOnce(t, start, updates);
    var (later, told) := Run(t, start, updates);
    assert [] + told == told;
    ReplayIsSymbols(t, t.blank(size), later.delivered.history.operations);
  }

  // ---- Against a server whose deltas are slices of one log ------------------

  lemma {:induction false} BatchConcat(a: seq<Instruction>, b: seq<Instruction>, viewport: Size)
    requires ValidBatch(a) && ValidBatch(b)
    ensures ValidBatch(a + b)
    ensures FinalViewport(a + b, viewport) == FinalViewport(b, FinalViewport(a, viewport))
    ensures BatchOperations(a + b, viewport)
            == BatchOperations(a, viewport) + BatchOperations(b, FinalViewport(a, viewport))
  {
    if b == [] {
      assert a + b == a;
    } else {
      var front := b[..|b| - 1];
      BatchConcat(a, front, viewport);
      assert (a + b)[..|a + b| - 1] == a + front;
      Associate(BatchOperations(a, viewport), BatchOperations(front, FinalViewport(a, viewport)),
                InstructionOperations(b[|b| - 1], FinalViewport(a + front, viewport)));
    }
  }

  function HistoryOf(operations: seq<Operation>): History {
    History(operations, |operations|, OutputLength(operations))
  }

  /** The state is what replaying `input` from the initial viewport leaves behind. */
  predicate Replays(t: Terminal, s: Remote, input: seq<Instruction>, size: Size) {
    && ValidBatch(input)
    && s.history == HistoryOf(BatchOperations(input, size))
    && s.viewport == FinalViewport(input, size)
    && s.initial == size
    && s.screen == t.Replay(t.blank(size), BatchOperations(input, size))
  }

  /** The input's operations fit the retention limits, if it is valid at all. */
  predicate FitsLimits(input: seq<Instruction>, size: Size) {
    ValidBatch(input) ==> Fits(HistoryOf([]), BatchOperations(input, size))
  }

  /** All of the server's output fits the retention limits, so nothing is ever compacted. */
  predicate FitsWhole(log: seq<Instruction>, size: Size) {
    forall end :: 0 <= end <= |log| ==> FitsLimits(log[..end], size)
  }

  /** Applying a batch to a replay gives the longer replay, if it is accepted and fits. */
  lemma ApplyingExtendsReplay(t: Terminal, s: Remote, input: seq<Instruction>, batch: seq<Instruction>, size: Size)
    requires Replays(t, s, input, size) && FitsLimits(input + batch, size) && Applied(t, s, batch).Ok?
    ensures Replays(t, Applied(t, s, batch).value, input + batch, size)
  {
    hide OutputLength, BatchOperations, FinalViewport, FinalEcho, ValidBatch;
    BatchConcat(input, batch, size);
    var before, added := BatchOperations(input, size), BatchOperations(batch, s.viewport);
    OutputLengthConcat(before, added);
    ReplayConcat(t, t.blank(size), before, added);
    NoOutput();
    assert Fits(s.history, added);
  }

  lemma NoOutput()
    ensures OutputLength([]) == 0
  {
  }

  /** The replay of a longer input extends the history of a shorter one. */
  lemma LongerReplayExtends(t: Terminal, a: Remote, b: Remote, input: seq<Instruction>, more: seq<Instruction>,
                            size: Size)
    requires Replays(t, a, input, size) && Replays(t, b, input + more, size)
    ensures Told(a) <= Told(b)
  {
    assert ValidBatch(more) by {
      forall i | 0 <= i < |more| ensures more[i] == (input + more)[|input| + i] {}
    }
    BatchConcat(input, more, size);
    FlattenConcat(BatchOperations(input, size), BatchOperations(more, a.viewport));
  }

  /** The part of the log that an id stands for. */
  function Prefix(server: Sender.Sender, id: u64): seq<Instruction>
    requires id in server.ends && server.ends[id] <= |server.log|
  {
    server.log[..server.ends[id]]
  }

  /** The state is the one the server means by `id`. */
  predicate StandsFor(t: Terminal, server: Sender.Sender, id: u64, s: Remote, size: Size) {
    id in server.ends && server.ends[id] <= |server.log| && Replays(t, s, Prefix(server, id), size)
  }

  predicate HoldsReplays(t: Terminal, server: Sender.Sender, c: Client, size: Size) {
    && (forall id :: id in c.received ==> StandsFor(t, server, id, c.received[id], size))
    && StandsFor(t, server, c.latest, c.delivered, size)
  }

  lemma CarriedPrefix(server: Sender.Sender, u: StateUpdate)
    requires Sender.Valid(server) && Sender.Carries(server, u)
    ensures Prefix(server, u.target) == Prefix(server, u.base) + u.delta
  {
    var a, b := server.ends[u.base], server.ends[u.target];
    assert server.log[..a] + server.log[a..b] == server.log[..b];
  }

  lemma LaterPrefix(server: Sender.Sender, a: u64, b: u64) returns (more: seq<Instruction>)
    requires Sender.Valid(server) && a in server.ends && b in server.ends && a <= b
    ensures Prefix(server, b) == Prefix(server, a) + more
  {
    more := server.log[server.ends[a]..server.ends[b]];
  }

  /** An update carrying its slice either changes no state, or stores the replay its target stands for. */
  lemma SliceTarget(t: Terminal, server: Sender.Sender, c: Client, size: Size, u: StateUpdate)
    requires Sender.Valid(server) && Sender.Carries(server, u)
    requires HoldsReplays(t, server, c, size) && FitsWhole(server.log, size)
    requires R.Reaches(TerminalRules(t), c, u)
    ensures var target := R.Target(TerminalRules(t), c, u).value;
            && StandsFor(t, server, u.target, target, size) && StandsFor(t, server, u.target, Copy(t, target), size)
            && (u.target > c.latest ==> Told(c.delivered) <= Told(target))
  {
    assert StandsFor(t, server, u.base, c.received[u.base], size);
    CarriedPrefix(server, u);
    var base := Copy(t, c.received[u.base]);
    ApplyingExtendsReplay(t, base, Prefix(server, u.base), u.delta, size);
    if u.target > c.latest {
      var more := LaterPrefix(server, c.latest, u.target);
      LongerReplayExtends(t, c.delivered, Applied(t, base, u.delta).value, Prefix(server, c.latest), more, size);
    }
  }

  lemma SliceStep(t: Terminal, server: Sender.Sender, c: Client, size: Size, u: StateUpdate)
    requires Sender.Valid(server) && Sender.Carries(server, u)
    requires HoldsReplays(t, server, c, size) && FitsWhole(server.log, size)
    ensures HoldsReplays(t, server, Step(t, c, u).0, size)
    ensures !UsesScreenDiff(t, c, u)
  {
    hide Sender.Valid, Sender.Carries, FitsWhole, R.Accept, R.Reaches, R.Target, Told, StandsFor;
    R.AcceptAddsOnlyTarget(TerminalRules(t), c, u);
    if R.Reaches(TerminalRules(t), c, u) {
      SliceTarget(t, server, c, size, u);
    }
  }

  predicate AllCarried(server: Sender.Sender, updates: seq<StateUpdate>) {
    forall k :: 0 <= k < |updates| ==> Sender.Carries(server, updates[k])
  }

  lemma StartHolds(t: Terminal, server: Sender.Sender, size: Size)
    requires Sender.Valid(server) && 0 in server.ends && server.ends[0] == 0
    ensures HoldsReplays(t, server, R.New(New(t, size)), size)
  {
    assert server.log[..0] == [];
  }

  lemma {:induction false} SliceRunHolds(t: Terminal, server: Sender.Sender, size: Size, updates: seq<StateUpdate>)
    requires Sender.Valid(server) && 0 in server.ends && server.ends[0] == 0
    requires AllCarried(server, updates) && FitsWhole(server.log, size)
    ensures HoldsReplays(t, server, Run(t, R.New(New(t, size)), updates).0, size)
  {
    if updates == [] {
      StartHolds(t, server, size);
    } else {
      var n := |updates| - 1;
      SliceRunHolds(t, server, size, updates[..n]);
      SliceStep(t, server, Run(t, R.New(New(t, size)), updates[..n]).0, size, updates[n]);
    }
  }

  /** Against such a server, if its output fits, a screen diff is never needed and a history never diverges. */
  lemma SlicesNeedNoScreenDiff(t: Terminal, server: Sender.Sender, size: Size, updates: seq<StateUpdate>)
    requires Sender.Valid(server) && 0 in server.ends && server.ends[0] == 0
    requires AllCarried(server, updates) && FitsWhole(server.log, size)
    ensures NeverUsesScreenDiff(t, R.New(New(t, size)), updates)
  {
    forall i | 0 <= i < |updates| ensures !UsesScreenDiff(t, Run(t, R.New(New(t, size)), updates[..i]).0, updates[i]) {
      SliceRunHolds(t, server, size, updates[..i]);
      SliceStep(t, server, Run(t, R.New(New(t, size)), updates[..i]).0, size, updates[i]);
    }
  }

  /**
   Whatever such a server sends, retransmits and rebuilds, and in whatever order and
   however often it arrives, the host is told exactly the operations of the server's
   log up to the latest state, each once and in order, and that is what its terminal shows.
   */
  lemma HostHearsServerLogOnce(t: Terminal, server: Sender.Sender, size: Size, updates: seq<StateUpdate>)
    requires Sender.Valid(server) && 0 in server.ends && server.ends[0] == 0
    requires AllCarried(server, updates) && FitsWhole(server.log, size)
    ensures var (c, told) := Run(t, R.New(New(t, size)), updates);
            && c.latest in server.ends && ValidBatch(Prefix(server, c.latest))
            && told == Flatten(BatchOperations(Prefix(server, c.latest), size))
            && t.ReplaySymbols(t.blank(size), told) == c.delivered.screen
  {
    var start := R.New(New(t, size));
    SliceRunHolds(t, server, size, updates);
    SlicesNeedNoScreenDiff(t, server, size, updates);
    HostHearsHistoryOnce(t, start, updates);
    assert [] + Run(t, start, updates).1 == Run(t, start, updates).1;
    ReplayIsSymbols(t, t.blank(size), BatchOperations(Prefix(server, Run(t, start, updates).0.latest), size));
  }

  /** Every sender a run produces is such a server. */
  lemma {:induction false} ReachableServer(actions: seq<(Sender.Action, u64)>)
    ensures var s := Sender.Run(actions).0; 0 in s.ends && s.ends[0] == 0
  {
    if actions != [] {
      var n := |actions| - 1;
      ReachableServer(actions[..n]);
      Sender.ActIsSound(Sender.Run(actions[..n]).0, actions[n].0, actions[n].1);
    }
  }
}
