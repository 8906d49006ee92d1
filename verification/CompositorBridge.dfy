/** The latest-wins bridge between the cockpit and the window manager: a sender that stores the newest
    sequence number and then enqueues, and a drainer that coalesces the queue and applies one group
    switch at a time, looking at the shared number before each window operation. */
module CompositorBridge {
  import opened Sequences
  import opened Wrappers

  type Window = nat

  datatype Command = Command(sequence: nat, hide: seq<Window>, show: seq<Window>)

  /** One `set_window_visible` call and whether the backend carried it out. */
  datatype Op = Op(sequence: nat, window: Window, visible: bool, ok: bool)

  /** The sender is between commands, or has stored `cmd`'s sequence but not yet enqueued it. */
  datatype Sender = Ready | Stored(cmd: Command)

  /** Where the drainer is: waiting for a command, emptying the queue, or at the `i`-th window of
      either list; `clear` says the shared number has been read and found not newer. */
  datatype Drainer =
    | Waiting
    | Coalescing(cmd: Command)
    | Hiding(cmd: Command, i: nat, clear: bool)
    | Showing(cmd: Command, i: nat, clear: bool)

  datatype Bridge = Bridge(
    shared: nat,            // the atomic both threads see
    queue: seq<Command>,
    sender: Sender,
    drainer: Drainer,
    applied: nat,           // the drainer's own latest sequence
    seen: nat,              // the newest value of `shared` the drainer has read
    issued: seq<Command>,   // everything the sender has been asked to send
    taken: nat,             // how many commands have left the queue
    ops: seq<Op>)           // every window operation, in order

  const INITIAL := Bridge(0, [], Ready, Waiting, 0, 0, [], 0, [])

  /** One atomic step of either thread. Reads are relaxed: the drainer may see any value of the shared
      number not older than the one it saw last. */
  datatype Action =
    | Store(cmd: Command)
    | Enqueue
    | Receive
    | TryReceive
    | Settle
    | Load(value: nat)
    | Perform(ok: bool)
    | Advance

  function LastIssued(b: Bridge): nat {
    if b.issued == [] then 0 else b.issued[|b.issued| - 1].sequence
  }

  predicate Enabled(b: Bridge, a: Action) {
    match a
    case Store(cmd) => b.sender.Ready? && cmd.sequence > LastIssued(b)
    case Enqueue => b.sender.Stored?
    case Receive => b.drainer.Waiting? && b.queue != []
    case TryReceive => b.drainer.Coalescing? && b.queue != []
    case Settle => b.drainer.Coalescing? && b.queue == []
    case Load(value) => InList(b.drainer) && !b.drainer.clear && b.seen <= value <= b.shared
    case Perform(_) => InList(b.drainer) && b.drainer.clear
    case Advance => AtEnd(b.drainer)
  }

  predicate InList(d: Drainer) {
    (d.Hiding? && d.i < |d.cmd.hide|) || (d.Showing? && d.i < |d.cmd.show|)
  }

  predicate AtEnd(d: Drainer) {
    (d.Hiding? && d.i >= |d.cmd.hide|) || (d.Showing? && d.i >= |d.cmd.show|)
  }

  function Apply(b: Bridge, a: Action): Bridge
    requires Enabled(b, a)
  {
    match a
    case Store(cmd) => b.(shared := cmd.sequence, sender := Stored(cmd), issued := b.issued + [cmd])
    case Enqueue => b.(queue := b.queue + [b.sender.cmd], sender := Ready)
    case Receive => b.(queue := b.queue[1..], taken := b.taken + 1, drainer := Coalescing(b.queue[0]))
    case TryReceive =>
      var next := b.queue[0];
      var kept := if next.sequence >= b.drainer.cmd.sequence then next else b.drainer.cmd;
      b.(queue := b.queue[1..], taken := b.taken + 1, drainer := Coalescing(kept))
    case Settle =>
      var cmd := b.drainer.cmd;
      if cmd.sequence < b.applied then b.(drainer := Waiting)
      else b.(applied := cmd.sequence, drainer := Hiding(cmd, 0, false))
    case Load(value) =>
      var d := b.drainer;
      var stale := value > d.cmd.sequence;
      b.(seen := value,
         drainer := if !stale then d.(clear := true) else if d.Hiding? then Showing(d.cmd, 0, false) else Waiting)
    case Perform(ok) =>
      var d := b.drainer;
      var op := if d.Hiding? then Op(d.cmd.sequence, d.cmd.hide[d.i], false, ok)
                else Op(d.cmd.sequence, d.cmd.show[d.i], true, ok);
      b.(ops := b.ops + [op], drainer := d.(i := d.i + 1, clear := false))
    case Advance =>
      b.(drainer := if b.drainer.Hiding? then Showing(b.drainer.cmd, 0, false) else Waiting)
  }

  // --------------------------------------------------------------- invariant

  /** Commands issued but not yet received, oldest first. */
  function InFlight(b: Bridge): seq<Command> {
    b.queue + if b.sender.Stored? then [b.sender.cmd] else []
  }

  predicate Increasing(s: seq<Command>) {
    && (forall i | 0 <= i < |s| :: s[i].sequence > 0)
    && (forall i, j | 0 <= i < j < |s| :: s[i].sequence < s[j].sequence)
  }

  predicate Ordered(ops: seq<Op>) {
    forall i, j | 0 <= i < j < |ops| :: ops[i].sequence <= ops[j].sequence
  }

  /** The `k`-th operation of a whole group switch: the hides, then the shows. */
  predicate IsOp(c: Command, k: nat, op: Op) {
    && op.sequence == c.sequence
    && if k < |c.hide| then op.window == c.hide[k] && !op.visible
       else k - |c.hide| < |c.show| && op.window == c.show[k - |c.hide|] && op.visible
  }

  /** The last `n` operations are the first `n` of `c`. */
  predicate EndsWith(ops: seq<Op>, c: Command, n: nat) {
    n <= |ops| && forall i | |ops| - n <= i < |ops| :: IsOp(c, i - (|ops| - n), ops[i])
  }

  /** How far an application that is never cut short has come. */
  function Reached(d: Drainer, c: Command): nat {
    match d
    case Waiting => |c.hide| + |c.show|
    case Coalescing(_) => 0
    case Hiding(_, i, _) => i
    case Showing(_, i, _) => |c.hide| + i
  }

  /** The drainer is about to perform an operation. */
  predicate Cleared(d: Drainer) {
    (d.Hiding? || d.Showing?) && d.clear
  }

  predicate InRange(d: Drainer) {
    && (d.Hiding? ==> d.i <= |d.cmd.hide| && (d.clear ==> d.i < |d.cmd.hide|))
    && (d.Showing? ==> d.i <= |d.cmd.show| && (d.clear ==> d.i < |d.cmd.show|))
  }

  /** What has been issued, what is under way and what has been received fit together. */
  ghost predicate QueueFits(b: Bridge) {
    && Increasing(b.issued)
    && b.shared == LastIssued(b)
    && b.taken <= |b.issued| && b.issued[b.taken..] == InFlight(b)
  }

  /** The drainer works on the command received last, and has seen nothing newer before an operation. */
  ghost predicate DrainerFits(b: Bridge) {
    && b.taken <= |b.issued|
    && b.seen <= b.shared
    && (!b.drainer.Waiting? ==> b.taken > 0 && b.drainer.cmd == b.issued[b.taken - 1])
    && (if b.drainer.Coalescing? then b.applied < b.drainer.cmd.sequence
        else b.applied == if b.taken == 0 then 0 else b.issued[b.taken - 1].sequence)
    && InRange(b.drainer)
    && (Cleared(b.drainer) ==> b.seen <= b.drainer.cmd.sequence)
  }

  /** The operations are in the order of the commands, and those of the last command are complete so far. */
  ghost predicate OpsFit(b: Bridge) {
    && b.taken <= |b.issued|
    && Ordered(b.ops)
    && (forall i | 0 <= i < |b.ops| :: b.ops[i].sequence <= b.applied)
    && (forall i | 0 <= i < |b.ops| :: FromIssued(b, b.ops[i]))
    && (b.taken == |b.issued| > 0 && !b.drainer.Coalescing? ==>
          EndsWith(b.ops, b.issued[b.taken - 1], Reached(b.drainer, b.issued[b.taken - 1])))
  }

  ghost predicate Inv(b: Bridge) {
    QueueFits(b) && DrainerFits(b) && OpsFit(b)
  }

  /** An operation is one its command asked for. */
  predicate FromIssued(b: Bridge, op: Op) {
    exists i | 0 <= i < |b.issued| ::
      && b.issued[i].sequence == op.sequence
      && op.window in (if op.visible then b.issued[i].show else b.issued[i].hide)
  }

  lemma StoreKeeps(b: Bridge, a: Action)
    requires Inv(b) && Enabled(b, a) && a.Store?
    ensures Inv(Apply(b, a))
  {
    StoredQueueFits(b, a.cmd);
    StoredOpsFit(b, a.cmd);
  }

  lemma StoredQueueFits(b: Bridge, c: Command)
    requires QueueFits(b) && Enabled(b, Store(c))
    ensures QueueFits(Apply(b, Store(c)))
  {
    var g := Apply(b, Store(c));
    IncreasingGrows(b.issued, c);
    assert g.issued[b.taken..] == b.issued[b.taken..] + [c];
  }

  lemma IncreasingGrows(s: seq<Command>, c: Command)
    requires Increasing(s) && c.sequence > 0 && (s != [] ==> c.sequence > s[|s| - 1].sequence)
    ensures Increasing(s + [c])
  {
  }

  lemma StoredOpsFit(b: Bridge, c: Command)
    requires OpsFit(b) && b.taken <= |b.issued| && Enabled(b, Store(c))
    ensures OpsFit(Apply(b, Store(c)))
  {
    AllFromIssued(b, Apply(b, Store(c)), c);
  }

  lemma AllFromIssued(b: Bridge, g: Bridge, c: Command)
    requires g.issued == b.issued + [c] && g.ops == b.ops && forall i | 0 <= i < |b.ops| :: FromIssued(b, b.ops[i])
    ensures forall i | 0 <= i < |g.ops| :: FromIssued(g, g.ops[i])
  {
    forall i | 0 <= i < |g.ops|
      ensures FromIssued(g, g.ops[i])
    {
      IssuedGrows(b, g, c, g.ops[i]);
    }
  }

  lemma IssuedGrows(b: Bridge, g: Bridge, c: Command, op: Op)
    requires g.issued == b.issued + [c] && FromIssued(b, op)
    ensures FromIssued(g, op)
  {
    var k :| 0 <= k < |b.issued| && b.issued[k].sequence == op.sequence
      && op.window in (if op.visible then b.issued[k].show else b.issued[k].hide);
    assert g.issued[k] == b.issued[k];
  }

  lemma EnqueueKeeps(b: Bridge)
    requires Inv(b) && Enabled(b, Enqueue)
    ensures Inv(Apply(b, Enqueue))
  {
    var g := Apply(b, Enqueue);
    assert QueueFits(g) by {
      assert InFlight(g) == InFlight(b);
    }
    assert OpsFit(g) by {
      SameIssued(b, g);
    }
  }

  lemma SameIssued(b: Bridge, g: Bridge)
    requires g.issued == b.issued
    ensures forall op :: FromIssued(g, op) <==> FromIssued(b, op)
  {
  }

  lemma ReceiveKeeps(b: Bridge, a: Action)
    requires Inv(b) && Enabled(b, a) && (a.Receive? || a.TryReceive?)
    ensures Inv(Apply(b, a))
  {
    ReceivedIsNext(b);
    ReceivedQueueFits(b, a);
    assert DrainerFits(Apply(b, a)) by {
      assert b.taken > 0 ==> b.issued[b.taken - 1].sequence < b.issued[b.taken].sequence;
    }
    assert OpsFit(Apply(b, a)) by {
      SameIssued(b, Apply(b, a));
    }
  }

  lemma ReceivedIsNext(b: Bridge)
    requires QueueFits(b) && b.queue != []
    ensures b.taken < |b.issued| && b.queue[0] == b.issued[b.taken]
  {
    assert b.queue[0] == InFlight(b)[0];
  }

  lemma ReceivedQueueFits(b: Bridge, a: Action)
    requires QueueFits(b) && Enabled(b, a) && (a.Receive? || a.TryReceive?)
    ensures QueueFits(Apply(b, a))
  {
    assert InFlight(Apply(b, a)) == InFlight(b)[1..];
  }

  lemma SettleKeeps(b: Bridge)
    requires Inv(b) && Enabled(b, Settle)
    ensures Inv(Apply(b, Settle))
  {
    SameIssued(b, Apply(b, Settle));
  }

  lemma LoadKeeps(b: Bridge, value: nat)
    requires Inv(b) && Enabled(b, Load(value))
    ensures Inv(Apply(b, Load(value)))
  {
    var g := Apply(b, Load(value));
    assert OpsFit(g) by {
      SameIssued(b, g);
      if value > b.drainer.cmd.sequence {
        StaleMeansIssued(b, value);
      }
    }
  }

  /** A newer value can only have been read if a newer command was issued: the last one is never cut short. */
  lemma StaleMeansIssued(b: Bridge, value: nat)
    requires Inv(b) && Enabled(b, Load(value)) && value > b.drainer.cmd.sequence
    ensures b.taken < |b.issued|
  {
  }

  lemma AdvanceKeeps(b: Bridge)
    requires Inv(b) && Enabled(b, Advance)
    ensures Inv(Apply(b, Advance))
  {
    SameIssued(b, Apply(b, Advance));
  }

  lemma OneMoreOp(ops: seq<Op>, op: Op, c: Command, n: nat)
    ensures EndsWith(ops, c, n) && IsOp(c, n, op) ==> EndsWith(ops + [op], c, n + 1)
    ensures Ordered(ops) && (forall i | 0 <= i < |ops| :: ops[i].sequence <= op.sequence) ==> Ordered(ops + [op])
  {
  }

  lemma PerformKeeps(b: Bridge, a: Action)
    requires Inv(b) && Enabled(b, a) && a.Perform?
    ensures Inv(Apply(b, a))
  {
    var op := Apply(b, a).ops[|b.ops|];
    assert Apply(b, a).ops == b.ops + [op];
    PerformedOpsFit(b, a, op);
  }

  lemma PerformedOpsFit(b: Bridge, a: Action, op: Op)
    requires DrainerFits(b) && OpsFit(b) && Enabled(b, a) && a.Perform? && Apply(b, a).ops == b.ops + [op]
    ensures OpsFit(Apply(b, a))
  {
    var c := b.drainer.cmd;
    assert c == b.issued[b.taken - 1] && op == Apply(b, a).ops[|b.ops|];
    OneMoreOp(b.ops, op, c, Reached(b.drainer, c));
    OpIsFromIssued(b, Apply(b, a), op, b.taken - 1);
  }

  lemma OpIsFromIssued(b: Bridge, g: Bridge, op: Op, k: nat)
    requires g.issued == b.issued && g.ops == b.ops + [op] && forall i | 0 <= i < |b.ops| :: FromIssued(b, b.ops[i])
    requires k < |b.issued| && b.issued[k].sequence == op.sequence
    requires op.window in (if op.visible then b.issued[k].show else b.issued[k].hide)
    ensures forall i | 0 <= i < |g.ops| :: FromIssued(g, g.ops[i])
  {
    SameIssued(b, g);
  }

  lemma StepKeepsInv(b: Bridge, a: Action)
    requires Inv(b) && Enabled(b, a)
    ensures Inv(Apply(b, a))
  {
    match a
    case Store(_) => StoreKeeps(b, a);
    case Enqueue => EnqueueKeeps(b);
    case Receive => ReceiveKeeps(b, a);
    case TryReceive => ReceiveKeeps(b, a);
    case Settle => SettleKeeps(b);
    case Load(value) => LoadKeeps(b, value);
    case Perform(_) => PerformKeeps(b, a);
    case Advance => AdvanceKeeps(b);
  }

  // ---------------------------------------------------------- every schedule

  ghost predicate IsRun(trace: seq<Bridge>, actions: seq<Action>) {
    && |trace| == |actions| + 1
    && trace[0] == INITIAL
    && forall i | 0 <= i < |actions| :: Enabled(trace[i], actions[i]) && trace[i + 1] == Apply(trace[i], actions[i])
  }

  lemma {:induction false} RunKeepsInv(trace: seq<Bridge>, actions: seq<Action>, n: nat)
    requires IsRun(trace, actions) && n <= |actions|
    ensures Inv(trace[n])
  {
    if n > 0 {
      RunKeepsInv(trace, actions, n - 1);
      StepKeepsInv(trace[n - 1], actions[n - 1]);
    }
  }

  /** Nobody has anything left to do. */
  predicate Quiescent(b: Bridge) {
    b.sender.Ready? && b.queue == [] && b.drainer.Waiting?
  }

  /** The visibility the operations leave a window with: the last successful one counts. */
  function Visibility(ops: seq<Op>, w: Window): Option<bool>
    decreases |ops|
  {
    if ops == [] then None
    else
      var op := ops[|ops| - 1];
      if op.window == w && op.ok then Some(op.visible) else Visibility(ops[..|ops| - 1], w)
  }

  /** In every interleaving no operation of an older command follows one of a newer command, and each is
      one that an issued command asked for. */
  lemma OpsNeverGoBack(trace: seq<Bridge>, actions: seq<Action>)
    requires IsRun(trace, actions)
    ensures var ops := trace[|actions|].ops;
      Ordered(ops) && forall i | 0 <= i < |ops| :: FromIssued(trace[|actions|], ops[i])
  {
    RunKeepsInv(trace, actions, |actions|);
  }

  /** At quiescence the last issued command has been carried out whole, and last: its hides and then its
      shows are the final operations, in order. If they succeeded, every window it names is as it says,
      a show overriding a hide. */
  lemma Convergence(trace: seq<Bridge>, actions: seq<Action>)
    requires IsRun(trace, actions) && Quiescent(trace[|actions|]) && trace[|actions|].issued != []
    ensures var b := trace[|actions|];
      var c := b.issued[|b.issued| - 1];
      var n := |c.hide| + |c.show|;
      && EndsWith(b.ops, c, n)
      && ((forall i | |b.ops| - n <= i < |b.ops| :: b.ops[i].ok) ==>
            forall w | w in c.hide || w in c.show :: Visibility(b.ops, w) == Some(w in c.show))
  {
    RunKeepsInv(trace, actions, |actions|);
    var b := trace[|actions|];
    var c := b.issued[|b.issued| - 1];
    var n := |c.hide| + |c.show|;
    assert b.issued[b.taken..] == [];
    if forall i | |b.ops| - n <= i < |b.ops| :: b.ops[i].ok {
      forall w | w in c.hide || w in c.show
        ensures Visibility(b.ops, w) == Some(w in c.show)
      {
        VisibilityAfter(b.ops, c, n, w);
        if w in c.show {
          var k :| 0 <= k < |c.show| && c.show[k] == w;
          assert w in c.show[..n - |c.hide|];
        }
      }
    }
  }

  lemma {:induction false} VisibilityAfter(ops: seq<Op>, c: Command, n: nat, w: Window)
    requires n <= |c.hide| + |c.show| && EndsWith(ops, c, n)
    requires forall i | |ops| - n <= i < |ops| :: ops[i].ok
    ensures n <= |c.hide| && w in c.hide[..n] ==> Visibility(ops, w) == Some(false)
    ensures n > |c.hide| && w in c.show[..n - |c.hide|] ==> Visibility(ops, w) == Some(true)
    ensures n > |c.hide| && w in c.hide && w !in c.show[..n - |c.hide|] ==> Visibility(ops, w) == Some(false)
    decreases n
  {
    if n > 0 {
      var front := ops[..|ops| - 1];
      assert IsOp(c, n - 1, ops[|ops| - 1]);
      VisibilityAfter(front, c, n - 1, w);
      if n <= |c.hide| {
        assert c.hide[..n] == c.hide[..n - 1] + [c.hide[n - 1]];
      } else {
        var m := n - |c.hide|;
        assert c.show[..m] == c.show[..m - 1] + [c.show[m - 1]];
        assert c.hide[..|c.hide|] == c.hide;
      }
    }
  }

  /** With a strictly increasing sender the drainer's own staleness check never fires. */
  lemma StaleDropIsDead(trace: seq<Bridge>, actions: seq<Action>, n: nat)
    requires IsRun(trace, actions) && n < |actions| && actions[n].Settle?
    ensures trace[n + 1].drainer == Hiding(trace[n].drainer.cmd, 0, false)
  {
    RunKeepsInv(trace, actions, n);
  }

  /** The drainer never looks back, and performs nothing older than what it has seen. */
  lemma SeenOnlyGrows(b: Bridge, a: Action)
    requires Inv(b) && Enabled(b, a)
    ensures var g := Apply(b, a);
      && g.seen >= b.seen
      && (g.ops == b.ops || (|g.ops| == |b.ops| + 1 && g.ops[..|b.ops|] == b.ops && g.ops[|b.ops|].sequence >= b.seen))
  {
  }

  /** A value has been seen, and every operation from the `k`-th on is newer than `sequence`. */
  ghost predicate NewerFrom(b: Bridge, k: nat, value: nat, sequence: nat) {
    b.seen >= value && k <= |b.ops| && forall i | k <= i < |b.ops| :: b.ops[i].sequence > sequence
  }

  lemma StaysNewer(b: Bridge, a: Action, k: nat, value: nat, sequence: nat)
    requires Inv(b) && Enabled(b, a) && NewerFrom(b, k, value, sequence) && value > sequence
    ensures NewerFrom(Apply(b, a), k, value, sequence)
  {
    SeenOnlyGrows(b, a);
    var before, after := b.ops, Apply(b, a).ops;
    if after != before {
      assert forall i | 0 <= i < |before| :: after[i] == after[..|before|][i];
    }
  }

  lemma LoadSees(b: Bridge, value: nat)
    requires Enabled(b, Load(value)) && b.drainer.cmd.sequence < value
    ensures NewerFrom(Apply(b, Load(value)), |b.ops|, value, b.drainer.cmd.sequence)
  {
  }

  lemma {:induction false} RunStaysNewer(trace: seq<Bridge>, actions: seq<Action>, n: nat, m: nat, k: nat, value: nat, sequence: nat)
    requires IsRun(trace, actions) && n <= m <= |actions| && NewerFrom(trace[n], k, value, sequence) && value > sequence
    ensures NewerFrom(trace[m], k, value, sequence)
  {
    if n < m {
      RunStaysNewer(trace, actions, n, m - 1, k, value, sequence);
      RunKeepsInv(trace, actions, m - 1);
      StaysNewer(trace[m - 1], actions[m - 1], k, value, sequence);
    }
  }

  /** Once a load has called a command stale, no operation of it follows. */
  lemma AbortIsFinal(trace: seq<Bridge>, actions: seq<Action>, n: nat, m: nat)
    requires IsRun(trace, actions) && n < m <= |actions|
    requires actions[n].Load? && trace[n].drainer.cmd.sequence < actions[n].value
    ensures NewerFrom(trace[m], |trace[n].ops|, actions[n].value, trace[n].drainer.cmd.sequence)
  {
    LoadSees(trace[n], actions[n].value);
    RunStaysNewer(trace, actions, n + 1, m, |trace[n].ops|, actions[n].value, trace[n].drainer.cmd.sequence);
  }

  // ----------------------------------------------------------------- progress

  function Weight(c: Command): nat {
    4 + 2 * |c.hide| + 2 * |c.show|
  }

  function QueueWeight(q: seq<Command>): nat {
    if q == [] then 0 else Weight(q[0]) + QueueWeight(q[1..])
  }

  /** What the drainer still has to do for the command it holds. */
  function Remaining(d: Drainer): nat
    requires InRange(d)
  {
    match d
    case Waiting => 0
    case Coalescing(c) => Weight(c) - 1
    case Hiding(c, i, clear) => 2 + 2 * (|c.hide| - i) + 2 * |c.show| - if clear then 1 else 0
    case Showing(c, i, clear) => 1 + 2 * (|c.show| - i) - if clear then 1 else 0
  }

  /** What is left to do when the sender pauses. */
  function Work(b: Bridge): nat
    requires InRange(b.drainer)
  {
    QueueWeight(b.queue) + Remaining(b.drainer)
  }

  predicate Drains(a: Action) {
    !a.Store? && !a.Enqueue?
  }

  lemma ReceiveProgresses(b: Bridge, a: Action)
    requires InRange(b.drainer) && Enabled(b, a) && (a.Receive? || a.TryReceive? || a.Settle?)
    ensures InRange(Apply(b, a).drainer) && Work(Apply(b, a)) < Work(b)
  {
  }

  lemma ListProgresses(b: Bridge, a: Action)
    requires InRange(b.drainer) && Enabled(b, a) && (a.Load? || a.Perform? || a.Advance?)
    ensures InRange(Apply(b, a).drainer) && Work(Apply(b, a)) < Work(b)
  {
    assert Apply(b, a).queue == b.queue;
  }

  lemma AlwaysAStep(b: Bridge)
    requires InRange(b.drainer) && b.sender.Ready? && b.seen <= b.shared
    ensures Quiescent(b) || Enabled(b, Receive) || Enabled(b, TryReceive) || Enabled(b, Settle)
         || Enabled(b, Load(b.shared)) || Enabled(b, Perform(true)) || Enabled(b, Advance)
  {
  }

  /** When the sender pauses, the drainer always has a step, and each of its steps brings it closer to
      quiescence: the state the convergence result speaks of is always reached. */
  lemma DrainerProgress(trace: seq<Bridge>, actions: seq<Action>, a: Action)
    requires IsRun(trace, actions) && trace[|actions|].sender.Ready?
    ensures var b := trace[|actions|];
      && InRange(b.drainer)
      && (Quiescent(b) || Enabled(b, Receive) || Enabled(b, TryReceive) || Enabled(b, Settle)
          || Enabled(b, Load(b.shared)) || Enabled(b, Perform(true)) || Enabled(b, Advance))
      && (Enabled(b, a) && Drains(a) ==> InRange(Apply(b, a).drainer) && Work(Apply(b, a)) < Work(b))
  {
    var b := trace[|actions|];
    RunKeepsInv(trace, actions, |actions|);
    AlwaysAStep(b);
    if Enabled(b, a) && Drains(a) {
      if a.Load? || a.Perform? || a.Advance? {
        ListProgresses(b, a);
      } else {
        ReceiveProgresses(b, a);
      }
    }
  }

  // ------------------------------------------------------- the loops themselves

  /** Command `at` is the newest of the first `n`, and the last to come among those as new. */
  predicate NewestOf(all: seq<Command>, n: nat, at: nat) {
    && at < n <= |all|
    && (forall i | 0 <= i < at :: all[i].sequence <= all[at].sequence)
    && (forall i | at < i < n :: all[i].sequence < all[at].sequence)
  }

  /** The drainer's inner loop over what is in the queue. */
  method Coalesce(first: Command, queued: seq<Command>) returns (cmd: Command, dropped: nat)
    ensures exists at: nat :: at <= |queued| && NewestOf([first] + queued, |queued| + 1, at) && cmd == ([first] + queued)[at]
    ensures Increasing([first] + queued) ==> cmd == ([first] + queued)[|queued|] && dropped == |queued|
  {
    cmd, dropped := first, 0;
    ghost var all, at: nat := [first] + queued, 0;
    for i := 0 to |queued|
      invariant NewestOf(all, i + 1, at) && cmd == all[at]
      invariant Increasing(all) ==> at == i && dropped == i
    {
      var next := queued[i];
      assert next == all[i + 1];
      if next.sequence >= cmd.sequence {
        cmd := next;
        dropped := dropped + 1;
        at := i + 1;
      }
    }
  }

  /** The operations of a command, with the outcomes the backend gives them. */
  function HideOps(c: Command, outcomes: seq<bool>): (ops: seq<Op>)
    requires |outcomes| == |c.hide|
    ensures |ops| == |c.hide|
    ensures forall k: nat | k < |ops| :: IsOp(c, k, ops[k]) && ops[k].ok == outcomes[k]
  {
    seq(|c.hide|, i requires 0 <= i < |c.hide| => Op(c.sequence, c.hide[i], false, outcomes[i]))
  }

  function ShowOps(c: Command, outcomes: seq<bool>): (ops: seq<Op>)
    requires |outcomes| == |c.show|
    ensures |ops| == |c.show|
    ensures forall k: nat | k < |ops| :: IsOp(c, |c.hide| + k, ops[k]) && ops[k].ok == outcomes[k]
  {
    seq(|c.show|, i requires 0 <= i < |c.show| => Op(c.sequence, c.show[i], true, outcomes[i]))
  }

  /** How many of `n` operations run before a load of the shared number comes out newer than `sequence`. */
  function RunsBeforeStale(loads: seq<nat>, sequence: nat, n: nat): (k: nat)
    requires n <= |loads|
    ensures k <= n && (k < n ==> loads[k] > sequence) && forall i | 0 <= i < k :: loads[i] <= sequence
  {
    if n == 0 || loads[0] > sequence then 0 else 1 + RunsBeforeStale(loads[1..], sequence, n - 1)
  }

  method ApplyWindowGroupSwitch(c: Command, hidden: seq<bool>, shown: seq<bool>) returns (out: seq<Op>)
    requires |hidden| == |c.hide| && |shown| == |c.show|
    ensures out == HideOps(c, hidden) + ShowOps(c, shown)
  {
    out := [];
    for i := 0 to |c.hide|
      invariant out == HideOps(c, hidden)[..i]
    {
      out := out + [Op(c.sequence, c.hide[i], false, hidden[i])];
    }
    ghost var first := out;
    for i := 0 to |c.show|
      invariant out == first + ShowOps(c, shown)[..i]
    {
      out := out + [Op(c.sequence, c.show[i], true, shown[i])];
    }
  }

  /** `hideLoads` and `showLoads` are what reading the shared number gives before each operation. Each
      list is cut at its first newer value; if none is newer this is the plain group switch. */
  method ApplyWindowGroupSwitchLatest(
    c: Command, hideLoads: seq<nat>, showLoads: seq<nat>, hidden: seq<bool>, shown: seq<bool>)
    returns (out: seq<Op>)
    requires |hideLoads| == |hidden| == |c.hide| && |showLoads| == |shown| == |c.show|
    ensures out == HideOps(c, hidden)[..RunsBeforeStale(hideLoads, c.sequence, |c.hide|)]
                 + ShowOps(c, shown)[..RunsBeforeStale(showLoads, c.sequence, |c.show|)]
    ensures NoneNewer(hideLoads, c.sequence) && NoneNewer(showLoads, c.sequence) ==> out == HideOps(c, hidden) + ShowOps(c, shown)
  {
    out := [];
    var i := 0;
    while i < |c.hide|
      invariant i <= |c.hide| && out == HideOps(c, hidden)[..i]
      invariant forall k | 0 <= k < i :: hideLoads[k] <= c.sequence
    {
      if hideLoads[i] > c.sequence {
        break;
      }
      out := out + [Op(c.sequence, c.hide[i], false, hidden[i])];
      i := i + 1;
    }
    RunsUnique(hideLoads, c.sequence, |c.hide|, i);
    ghost var first := out;
    i := 0;
    while i < |c.show|
      invariant i <= |c.show| && out == first + ShowOps(c, shown)[..i]
      invariant forall k | 0 <= k < i :: showLoads[k] <= c.sequence
    {
      if showLoads[i] > c.sequence {
        break;
      }
      out := out + [Op(c.sequence, c.show[i], true, shown[i])];
      i := i + 1;
    }
    RunsUnique(showLoads, c.sequence, |c.show|, i);
    if NoneNewer(hideLoads, c.sequence) && NoneNewer(showLoads, c.sequence) {
      RunsAll(hideLoads, c.sequence);
      RunsAll(showLoads, c.sequence);
    }
  }

  predicate NoneNewer(loads: seq<nat>, sequence: nat) {
    forall i | 0 <= i < |loads| :: loads[i] <= sequence
  }

  lemma RunsAll(loads: seq<nat>, sequence: nat)
    requires NoneNewer(loads, sequence)
    ensures RunsBeforeStale(loads, sequence, |loads|) == |loads|
  {
    RunsUnique(loads, sequence, |loads|, |loads|);
  }

  lemma RunsUnique(loads: seq<nat>, sequence: nat, n: nat, k: nat)
    requires k <= n <= |loads| && (k < n ==> loads[k] > sequence) && forall i | 0 <= i < k :: loads[i] <= sequence
    ensures k == RunsBeforeStale(loads, sequence, n)
  {
  }

  // ---------------------------------------------- the loops in any interleaving

  /** A stretch of a run, from any state. */
  ghost predicate Stretch(trace: seq<Bridge>, actions: seq<Action>) {
    && |trace| == |actions| + 1
    && forall i | 0 <= i < |actions| :: Enabled(trace[i], actions[i]) && trace[i + 1] == Apply(trace[i], actions[i])
  }

  lemma StretchRest(trace: seq<Bridge>, actions: seq<Action>)
    requires Stretch(trace, actions) && actions != []
    ensures Enabled(trace[0], actions[0]) && trace[1] == Apply(trace[0], actions[0])
    ensures Stretch(trace[1..], actions[1..]) && trace[1..][|actions| - 1] == trace[|actions|]
  {
  }

  /** The values that were loaded, in order. */
  function Loaded(actions: seq<Action>): seq<nat> {
    if actions == [] then []
    else (if actions[0].Load? then [actions[0].value] else []) + Loaded(actions[1..])
  }

  /** What a loop over `windows` does: one operation for each, until a load comes out newer. */
  function CutOps(sequence: nat, windows: seq<Window>, visible: bool, loads: seq<nat>, outcomes: seq<bool>): seq<Op>
    requires |loads| == |outcomes| == |windows|
  {
    if windows == [] || loads[0] > sequence then []
    else [Op(sequence, windows[0], visible, outcomes[0])] + CutOps(sequence, windows[1..], visible, loads[1..], outcomes[1..])
  }

  /** The loads that such a loop looks at. */
  function Looked(sequence: nat, loads: seq<nat>): seq<nat> {
    if loads == [] then [] else [loads[0]] + if loads[0] > sequence then [] else Looked(sequence, loads[1..])
  }

  lemma {:induction false} CutIsPrefix(sequence: nat, windows: seq<Window>, visible: bool, loads: seq<nat>, outcomes: seq<bool>, all: seq<Op>)
    requires |loads| == |outcomes| == |windows| == |all|
    requires forall k | 0 <= k < |all| :: all[k] == Op(sequence, windows[k], visible, outcomes[k])
    ensures CutOps(sequence, windows, visible, loads, outcomes) == all[..RunsBeforeStale(loads, sequence, |loads|)]
  {
    if windows != [] && loads[0] <= sequence {
      CutIsPrefix(sequence, windows[1..], visible, loads[1..], outcomes[1..], all[1..]);
      var k := RunsBeforeStale(loads[1..], sequence, |loads| - 1);
      assert all[..1 + k] == [all[0]] + all[1..][..k];
    }
  }

  /** From a state with `windows` left, where `clear` says that `seen` has cleared the first of them, the loads
      `loaded` and the operations `ops` are those of the loop for `loads` and `outcomes`. */
  ghost predicate LoopDoes(sequence: nat, windows: seq<Window>, visible: bool, clear: bool, seen: nat,
                           loaded: seq<nat>, ops: seq<Op>, loads: seq<nat>, outcomes: seq<bool>) {
    && |loads| == |outcomes| == |windows|
    && (if clear then [seen] + loaded else loaded) == Looked(sequence, loads)
    && ops == CutOps(sequence, windows, visible, loads, outcomes)
  }

  lemma LoopIsCut(sequence: nat, windows: seq<Window>, visible: bool, seen: nat, value: nat) returns (loads: seq<nat>, outcomes: seq<bool>)
    requires windows != [] && value > sequence
    ensures LoopDoes(sequence, windows, visible, false, seen, [value], [], loads, outcomes)
  {
    loads, outcomes := [value] + seq(|windows| - 1, _ => 0), seq(|windows|, _ => false);
  }

  lemma LoopPerforms(sequence: nat, windows: seq<Window>, visible: bool, seen: nat, later: nat, loaded: seq<nat>, ops: seq<Op>,
                     loads: seq<nat>, outcomes: seq<bool>, ok: bool)
    requires windows != [] && seen <= sequence
    requires LoopDoes(sequence, windows[1..], visible, false, later, loaded, ops, loads, outcomes)
    ensures LoopDoes(sequence, windows, visible, true, seen, loaded, [Op(sequence, windows[0], visible, ok)] + ops, [seen] + loads, [ok] + outcomes)
  {
    assert ([seen] + loads)[1..] == loads && ([ok] + outcomes)[1..] == outcomes;
  }

  predicate InLoop(d: Drainer, hiding: bool) {
    if hiding then d.Hiding? else d.Showing?
  }

  /** The windows left in the list at hand. */
  function Left(d: Drainer): seq<Window>
    requires (d.Hiding? || d.Showing?) && InRange(d)
  {
    if d.Hiding? then d.cmd.hide[d.i..] else d.cmd.show[d.i..]
  }

  /** However sender and drainer are interleaved, and whatever the loads come out as: from any point in one of
      the two lists until the drainer leaves it, its operations are those of the loop. */
  lemma {:induction false} DrainerFollowsLoop(trace: seq<Bridge>, actions: seq<Action>, hiding: bool)
    returns (loads: seq<nat>, outcomes: seq<bool>, ops: seq<Op>)
    requires Stretch(trace, actions) && Inv(trace[0]) && actions != [] && InLoop(trace[0].drainer, hiding)
    requires forall i | 0 <= i < |actions| :: InLoop(trace[i].drainer, hiding)
    requires !InLoop(trace[|actions|].drainer, hiding)
    ensures trace[|actions|].ops == trace[0].ops + ops
    ensures trace[|actions|].drainer == if hiding then Showing(trace[0].drainer.cmd, 0, false) else Waiting
    ensures AtLoop(trace[0], hiding, Loaded(actions), ops, loads, outcomes)
    decreases |actions|
  {
    StretchRest(trace, actions);
    StepKeepsInv(trace[0], actions[0]);
    if |actions| == 1 {
      assert actions == [actions[0]];
      loads, outcomes := LoopLeft(trace[0], actions[0], hiding);
      ops := [];
    } else {
      assert InLoop(trace[1].drainer, hiding);
      loads, outcomes, ops := DrainerFollowsLoop(trace[1..], actions[1..], hiding);
      loads, outcomes, ops := LoopStep(trace[0], actions[0], hiding, Loaded(actions[1..]), trace[|actions|].ops, loads, outcomes, ops);
    }
  }

  /** The drainer as the loop sees it. */
  ghost predicate AtLoop(b: Bridge, hiding: bool, loaded: seq<nat>, ops: seq<Op>, loads: seq<nat>, outcomes: seq<bool>) {
    && InLoop(b.drainer, hiding) && InRange(b.drainer)
    && LoopDoes(b.drainer.cmd.sequence, Left(b.drainer), !hiding, b.drainer.clear, b.seen, loaded, ops, loads, outcomes)
  }

  /** A step within a list. */
  lemma LoopStep(b: Bridge, a: Action, hiding: bool, loaded: seq<nat>, end: seq<Op>, loads: seq<nat>, outcomes: seq<bool>, ops: seq<Op>)
    returns (loads': seq<nat>, outcomes': seq<bool>, ops': seq<Op>)
    requires Inv(b) && Enabled(b, a) && InLoop(b.drainer, hiding)
    requires AtLoop(Apply(b, a), hiding, loaded, ops, loads, outcomes) && end == Apply(b, a).ops + ops
    ensures Apply(b, a).drainer.cmd == b.drainer.cmd && end == b.ops + ops'
    ensures AtLoop(b, hiding, (if a.Load? then [a.value] else []) + loaded, ops', loads', outcomes')
  {
    if a.Perform? {
      NothingBefore(loaded);
      loads', outcomes', ops' := PerformStep(b, a.ok, hiding, loaded, end, loads, outcomes, ops);
    } else {
      loads', outcomes', ops' := loads, outcomes, ops;
      if a.Load? {
        ClearStep(b, a.value, hiding, loaded, loads, outcomes, ops);
      } else {
        NothingBefore(loaded);
        SenderStep(b, a, hiding, loaded, loads, outcomes, ops);
      }
    }
  }

  lemma ClearStep(b: Bridge, value: nat, hiding: bool, loaded: seq<nat>, loads: seq<nat>, outcomes: seq<bool>, ops: seq<Op>)
    requires Enabled(b, Load(value)) && InLoop(b.drainer, hiding) && InRange(b.drainer)
    requires AtLoop(Apply(b, Load(value)), hiding, loaded, ops, loads, outcomes)
    ensures value <= b.drainer.cmd.sequence && Apply(b, Load(value)).drainer.cmd == b.drainer.cmd
    ensures AtLoop(b, hiding, [value] + loaded, ops, loads, outcomes)
  {
  }

  lemma SenderStep(b: Bridge, a: Action, hiding: bool, loaded: seq<nat>, loads: seq<nat>, outcomes: seq<bool>, ops: seq<Op>)
    requires Enabled(b, a) && (a.Store? || a.Enqueue? || a.Advance?) && InLoop(b.drainer, hiding)
    requires AtLoop(Apply(b, a), hiding, loaded, ops, loads, outcomes)
    ensures AtLoop(b, hiding, loaded, ops, loads, outcomes) && Apply(b, a).drainer == b.drainer && Apply(b, a).ops == b.ops
  {
  }

  lemma PerformStep(b: Bridge, ok: bool, hiding: bool, loaded: seq<nat>, end: seq<Op>, loads: seq<nat>, outcomes: seq<bool>, ops: seq<Op>)
    returns (loads': seq<nat>, outcomes': seq<bool>, ops': seq<Op>)
    requires Inv(b) && Enabled(b, Perform(ok)) && InLoop(b.drainer, hiding)
    requires AtLoop(Apply(b, Perform(ok)), hiding, loaded, ops, loads, outcomes) && end == Apply(b, Perform(ok)).ops + ops
    ensures end == b.ops + ops' && AtLoop(b, hiding, loaded, ops', loads', outcomes')
  {
    var d, g := b.drainer, Apply(b, Perform(ok));
    var op := g.ops[|b.ops|];
    Regroup(b.ops, [op], ops);
    assert Left(d)[1..] == Left(g.drainer);
    LoopPerforms(d.cmd.sequence, Left(d), !hiding, b.seen, g.seen, loaded, ops, loads, outcomes, ok);
    loads', outcomes', ops' := [b.seen] + loads, [ok] + outcomes, [op] + ops;
  }

  /** The step that leaves a list: a stale load, or its end. */
  lemma LoopLeft(b: Bridge, a: Action, hiding: bool) returns (loads: seq<nat>, outcomes: seq<bool>)
    requires Inv(b) && Enabled(b, a) && InLoop(b.drainer, hiding) && !InLoop(Apply(b, a).drainer, hiding)
    ensures Apply(b, a).ops == b.ops
    ensures Apply(b, a).drainer == if hiding then Showing(b.drainer.cmd, 0, false) else Waiting
    ensures AtLoop(b, hiding, Loaded([a]), [], loads, outcomes)
  {
    if a.Load? {
      loads, outcomes := LoopIsCut(b.drainer.cmd.sequence, Left(b.drainer), !hiding, b.seen, a.value);
      assert Loaded([a]) == [a.value];
    } else {
      loads, outcomes := [], [];
    }
  }

  lemma {:induction false} LoadedConcat(xs: seq<Action>, ys: seq<Action>)
    ensures Loaded(xs + ys) == Loaded(xs) + Loaded(ys)
  {
    if xs == [] {
      NothingBefore(Loaded(ys));
      assert xs + ys == ys;
    } else {
      LoadedConcat(xs[1..], ys);
      assert (xs + ys)[1..] == xs[1..] + ys;
      Regroup(if xs[0].Load? then [xs[0].value] else [], Loaded(xs[1..]), Loaded(ys));
    }
  }

  lemma {:induction false} StretchKeepsInv(trace: seq<Bridge>, actions: seq<Action>, n: nat)
    requires Stretch(trace, actions) && Inv(trace[0]) && n <= |actions|
    ensures Inv(trace[n])
  {
    if n > 0 {
      StretchKeepsInv(trace, actions, n - 1);
      StepKeepsInv(trace[n - 1], actions[n - 1]);
    }
  }

  /** What the backend answered, in order. */
  function Answered(actions: seq<Action>): seq<bool> {
    if actions == [] then []
    else (if actions[0].Perform? then [actions[0].ok] else []) + Answered(actions[1..])
  }

  function Outcomes(ops: seq<Op>): (oks: seq<bool>)
    ensures |oks| == |ops| && forall k | 0 <= k < |ops| :: oks[k] == ops[k].ok
  {
    seq(|ops|, i requires 0 <= i < |ops| => ops[i].ok)
  }

  /** In any interleaving, from any state, the operations added carry the backend's answers, each its own. */
  lemma {:induction false} OutcomesAreAnswers(trace: seq<Bridge>, actions: seq<Action>) returns (added: seq<Op>)
    requires Stretch(trace, actions)
    ensures trace[|actions|].ops == trace[0].ops + added && Outcomes(added) == Answered(actions)
    decreases |actions|
  {
    if actions == [] {
      added := [];
    } else {
      StretchRest(trace, actions);
      var later := OutcomesAreAnswers(trace[1..], actions[1..]);
      var first := trace[1].ops[|trace[0].ops|..];
      added := first + later;
      Regroup(trace[0].ops, first, later);
      assert trace[1].ops == trace[0].ops + first && Outcomes(first) == if actions[0].Perform? then [actions[0].ok] else [];
      assert Outcomes(added) == Outcomes(first) + Outcomes(later);
    }
  }

  lemma SameAdded(before: seq<Op>, xs: seq<Op>, ys: seq<Op>)
    requires before + xs == before + ys
    ensures xs == ys
  {
    assert xs == (before + xs)[|before|..];
    assert ys == (before + ys)[|before|..];
  }

  lemma OutcomesOfSwitch(c: Command, hidden: seq<bool>, shown: seq<bool>, m: nat, n: nat)
    requires m <= |hidden| == |c.hide| && n <= |shown| == |c.show|
    ensures Outcomes(HideOps(c, hidden)[..m] + ShowOps(c, shown)[..n]) == hidden[..m] + shown[..n]
  {
  }

  /** One group switch: what it loads before its operations, the operations with the outcomes that the backend
      gives, and those outcomes. Each list is cut at its first newer load. */
  ghost predicate SwitchDoes(c: Command, loaded: seq<nat>, ops: seq<Op>, answers: seq<bool>,
                             hideLoads: seq<nat>, showLoads: seq<nat>, hidden: seq<bool>, shown: seq<bool>) {
    && |hideLoads| == |hidden| == |c.hide| && |showLoads| == |shown| == |c.show|
    && loaded == Looked(c.sequence, hideLoads) + Looked(c.sequence, showLoads)
    && var m, n := RunsBeforeStale(hideLoads, c.sequence, |c.hide|), RunsBeforeStale(showLoads, c.sequence, |c.show|);
       ops == HideOps(c, hidden)[..m] + ShowOps(c, shown)[..n] && answers == hidden[..m] + shown[..n]
  }

  /** In any interleaving, from a settled command until the drainer waits again, the operations are those
      that the group switch returns for the loads that were made and the answers of the backend. `k` is where
      the hides end. */
  lemma DrainerRunsGroupSwitch(trace: seq<Bridge>, actions: seq<Action>, c: Command, k: nat)
    returns (hideLoads: seq<nat>, showLoads: seq<nat>, hidden: seq<bool>, shown: seq<bool>, ops: seq<Op>)
    requires Stretch(trace, actions) && Inv(trace[0]) && trace[0].drainer == Hiding(c, 0, false)
    requires 0 < k < |actions| && trace[|actions|].drainer.Waiting?
    requires forall i | 0 <= i < |actions| :: InLoop(trace[i].drainer, i < k)
    ensures trace[|actions|].ops == trace[0].ops + ops
    ensures SwitchDoes(c, Loaded(actions), ops, Answered(actions), hideLoads, showLoads, hidden, shown)
  {
    var hides, shows;
    assert actions == actions[..k] + actions[k..];
    LoadedConcat(actions[..k], actions[k..]);
    StretchKeepsInv(trace, actions, k);
    hideLoads, hidden, hides := DrainerFollowsLoop(trace[..k + 1], actions[..k], true);
    showLoads, shown, shows := DrainerFollowsLoop(trace[k..], actions[k..], false);
    Regroup(trace[0].ops, hides, shows);
    ops := OutcomesAreAnswers(trace, actions);
    SameAdded(trace[0].ops, ops, hides + shows);
    assert c.hide[0..] == c.hide && c.show[0..] == c.show;
    CutIsPrefix(c.sequence, c.hide, false, hideLoads, hidden, HideOps(c, hidden));
    CutIsPrefix(c.sequence, c.show, true, showLoads, shown, ShowOps(c, shown));
    OutcomesOfSwitch(c, hidden, shown, |hides|, |shows|);
  }

  /** The commands taken from the queue, in order. */
  function Taken(trace: seq<Bridge>, actions: seq<Action>): seq<Command>
    requires |trace| == |actions| + 1
  {
    if actions == [] then []
    else
      var m := |actions| - 1;
      Taken(trace[..m + 1], actions[..m])
        + if (actions[m].Receive? || actions[m].TryReceive?) && trace[m].queue != [] then [trace[m].queue[0]] else []
  }

  /** However sender and drainer are interleaved, what the drainer holds while it empties the queue is what
      the coalescing loop keeps of the commands taken so far. */
  lemma {:induction false} DrainerCoalesces(trace: seq<Bridge>, actions: seq<Action>) returns (at: nat)
    requires Stretch(trace, actions) && actions != [] && trace[0].drainer.Waiting? && actions[0].Receive?
    requires forall i | 0 < i <= |actions| :: trace[i].drainer.Coalescing?
    ensures var all := Taken(trace, actions);
      NewestOf(all, |all|, at) && trace[|actions|].drainer.cmd == all[at]
    decreases |actions|
  {
    var m := |actions| - 1;
    var before, all := Taken(trace[..m + 1], actions[..m]), Taken(trace, actions);
    assert trace[m + 1] == Apply(trace[m], actions[m]);
    if m == 0 {
      at := 0;
    } else {
      at := DrainerCoalesces(trace[..m + 1], actions[..m]);
      if actions[m].TryReceive? && trace[m].queue[0].sequence >= trace[m].drainer.cmd.sequence {
        at := |before|;
      }
    }
  }

  /** Which command that is, is determined. */
  lemma NewestIsOne(all: seq<Command>, n: nat, at: nat, other: nat)
    requires NewestOf(all, n, at) && NewestOf(all, n, other)
    ensures at == other
  {
    var first, second := all[at].sequence, all[other].sequence;
  }
}
