/**
 write_log and the log's consumer with the steps of the queue's monitor written out: full, push and pop are the
 calls of BlockQueue, with its mutex and its condition variable.  Every run of this system is a run of AsyncLog,
 in which each of those calls is one step.
 */
module LogSystem {
  import opened CString
  import opened Interleaving
  import opened AsyncLog
  import BlockQueue

  /** How far a writer is: outside; with a formatted line, about to ask or asking full(); told that there is room,
      about to call or calling push(); about to write to the file. */
  datatype Stage = Idle | Has(line: Text) | Room(line: Text) | NoRoom(line: Text)

  /** The monitor and what is outside it.  `hand` is the consumer's local string, `ended` says that its pop has
      failed and its loop is over. */
  datatype System = System(m: BlockQueue.Monitor<Text>, isAsync: bool, stage: map<Thread, Stage>, consumer: Thread,
                           hand: Option<Text>, ended: bool, file: seq<Entry>, formatted: seq<Text>, lost: seq<Text>)

  /** The next step of thread `t`; an idle writer formats `line`, and `fails` is for the consumer's wait. */
  datatype Move = Move(t: Thread, line: Text, fails: bool)

  function InMonitor(s: System, t: Thread, call: BlockQueue.Call<Text>, fails: bool): System {
    s.(m := BlockQueue.Step(s.m, BlockQueue.Act(t, call, fails)))
  }

  function Staged(s: System, t: Thread, g: Stage): System {
    s.(stage := s.stage[t := g])
  }

  /** A step of write_log. */
  function Write(s: System, t: Thread, line: Text): System
    requires t in s.stage && t in s.m.pc
  {
    var p := s.m.pc[t];
    match s.stage[t]
    case Idle => Staged(s, t, Has(line)).(formatted := s.formatted + [line])
    case Has(l) =>
      if p.Outside? && !s.isAsync then Staged(s, t, NoRoom(l))
      else if p.Leaving? then
        Staged(InMonitor(s, t, BlockQueue.Asking, false), t, if p.result then NoRoom(l) else Room(l))
      else InMonitor(s, t, BlockQueue.Asking, false)
    case Room(l) =>
      var s' := InMonitor(s, t, BlockQueue.Pushing(l), false);
      if p.Leaving? then Staged(s', t, Idle)
      else if p.Inside? && |s.m.queue| >= s.m.max then s'.(lost := s.lost + [l])
      else s'
    case NoRoom(l) => Staged(s, t, Idle).(file := s.file + [Direct(l)])
  }

  /** A step of async_write_log. */
  function Consume(s: System, fails: bool): System
    requires s.consumer in s.m.pc
  {
    var p := s.m.pc[s.consumer];
    if s.ended then s
    else if p.Outside? && s.hand.Some? then s.(file := s.file + [Queued(s.hand.value)], hand := None)
    else
      var s' := InMonitor(s, s.consumer, BlockQueue.Popping, fails);
      if p.Inside? && s.m.queue != [] then s'.(hand := Some(s.m.queue[0]))
      else if p == BlockQueue.Leaving(false) then s'.(ended := true)
      else s'
  }

  function Step(s: System, a: Move): System {
    if a.t == s.consumer && a.t in s.m.pc then Consume(s, a.fails)
    else if a.t in s.stage && a.t in s.m.pc then Write(s, a.t, a.line)
    else s
  }

  function Init(writers: set<Thread>, consumer: Thread, max: nat, isAsync: bool): System {
    System(BlockQueue.Init(writers + {consumer}, max), isAsync, map t | t in writers :: Idle, consumer, None, false,
           [], [], [])
  }

  /** Where a writer can be in the monitor at each stage. */
  ghost predicate WriterAt(isAsync: bool, g: Stage, p: BlockQueue.Pc<Text>) {
    match g
    case Idle => p.Outside?
    case Has(_) =>
      || p.Outside?
      || (isAsync &&
            (p == BlockQueue.Calling(BlockQueue.Asking) || p == BlockQueue.Inside(BlockQueue.Asking) || p.Leaving?))
    case Room(l) =>
      || p.Outside? || p == BlockQueue.Calling(BlockQueue.Pushing(l)) || p == BlockQueue.Inside(BlockQueue.Pushing(l))
      || p.ToBroadcast? || p.Leaving?
    case NoRoom(_) => p.Outside?
  }

  ghost predicate ConsumerAt(hand: Option<Text>, p: BlockQueue.Pc<Text>) {
    if hand.Some? then p.Outside? || p == BlockQueue.Leaving(true)
    else || p.Outside? || p == BlockQueue.Calling(BlockQueue.Popping) || p == BlockQueue.Inside(BlockQueue.Popping)
         || p.Asleep? || p.Woken? || p == BlockQueue.Leaving(false)
  }

  ghost predicate Places(s: System) {
    && s.consumer in s.m.pc && s.consumer !in s.stage && ConsumerAt(s.hand, s.m.pc[s.consumer])
    && forall t :: t in s.stage ==> t in s.m.pc && WriterAt(s.isAsync, s.stage[t], s.m.pc[t])
  }

  /** What a writer's place amounts to when each call on the queue is one step: full() takes its step when it tests,
      push() when it appends or refuses. */
  function AbsPc(g: Stage, p: BlockQueue.Pc<Text>): Pc {
    match g
    case Idle => Outside
    case Has(l) => if p.Leaving? then if p.result then WillWrite(l) else WillPush(l) else Formatted(l)
    case Room(l) => if p.ToBroadcast? || p.Leaving? then Outside else WillPush(l)
    case NoRoom(l) => WillWrite(l)
  }

  function Writers(s: System): map<Thread, Pc> {
    map t | t in s.stage && t in s.m.pc :: AbsPc(s.stage[t], s.m.pc[t])
  }

  function Abs(s: System): Log {
    Log(s.m.queue, s.m.max, s.isAsync, Writers(s), s.hand, s.file, s.formatted, s.m.pushed, s.lost)
  }

  /** The steps of a writer that are seen from outside the monitor: formatting, the test of full(), the append or
      refusal of push(), the direct write, and the decision when the log has no queue. */
  ghost predicate WriterSeen(s: System, t: Thread)
    requires t in s.stage && t in s.m.pc
  {
    match s.stage[t]
    case Has(_) => s.m.pc[t].Inside? || (s.m.pc[t].Outside? && !s.isAsync)
    case Room(_) => s.m.pc[t].Inside?
    case _ => true
  }

  /** The steps of the consumer that are seen: it takes the front of the queue, or writes the line in its hand. */
  ghost predicate ConsumerSeen(s: System)
    requires s.consumer in s.m.pc
  {
    && !s.ended
    && if s.hand.Some? then s.m.pc[s.consumer].Outside? else s.m.pc[s.consumer].Inside? && s.m.queue != []
  }

  /** A step of the monitor moves the thread itself, and others only out of their sleep. */
  lemma MonitorMoves(m: BlockQueue.Monitor<Text>, t: Thread, call: BlockQueue.Call<Text>, fails: bool)
    requires t in m.pc
    ensures var m' := BlockQueue.Step(m, BlockQueue.Act(t, call, fails));
            && m'.max == m.max && m'.pc.Keys == m.pc.Keys
            && forall u :: u in m.pc && u != t ==> m'.pc[u] == m.pc[u] || (m.pc[u].Asleep? && m'.pc[u].Woken?)
  {
  }

  /** full() under the mutex: the test is the only step that is seen from outside. */
  lemma AskMoves(m: BlockQueue.Monitor<Text>, t: Thread)
    requires t in m.pc && WriterAt(true, Has(Text([])), m.pc[t])
    ensures var m' := BlockQueue.Step(m, BlockQueue.Act(t, BlockQueue.Asking, false));
            && m'.queue == m.queue && m'.pushed == m.pushed && t in m'.pc
            && m'.pc[t] == match m.pc[t]
                           case Outside => BlockQueue.Calling(BlockQueue.Asking)
                           case Calling(c) => if m.holder.None? then BlockQueue.Inside(c) else m.pc[t]
                           case Inside(_) => BlockQueue.Leaving(|m.queue| >= m.max)
                           case _ => BlockQueue.Outside
  {
  }

  /** push() under the mutex: the append or the refusal is the only step that is seen from outside. */
  lemma PushMoves(m: BlockQueue.Monitor<Text>, t: Thread, l: Text)
    requires t in m.pc && WriterAt(true, Room(l), m.pc[t])
    ensures var m' := BlockQueue.Step(m, BlockQueue.Act(t, BlockQueue.Pushing(l), false));
            && var added := m.pc[t].Inside? && |m.queue| < m.max;
            && m'.queue == (if added then m.queue + [l] else m.queue)
            && m'.pushed == (if added then m.pushed + [l] else m.pushed) && t in m'.pc
            && m'.pc[t] == match m.pc[t]
                           case Outside => BlockQueue.Calling(BlockQueue.Pushing(l))
                           case Calling(c) => if m.holder.None? then BlockQueue.Inside(c) else m.pc[t]
                           case Inside(_) => BlockQueue.ToBroadcast(|m.queue| < m.max)
                           case ToBroadcast(ok) => BlockQueue.Leaving(ok)
                           case _ => BlockQueue.Outside
  {
  }

  /** What the others make of a step of thread `t`. */
  lemma OthersStay(s: System, s': System, t: Thread)
    requires Places(s) && s'.isAsync == s.isAsync && s'.consumer == s.consumer
    requires s'.m.pc.Keys == s.m.pc.Keys && s'.stage.Keys == s.stage.Keys
    requires forall u :: u in s.m.pc && u != t ==> s'.m.pc[u] == s.m.pc[u] || (s.m.pc[u].Asleep? && s'.m.pc[u].Woken?)
    requires forall u :: u in s.stage && u != t ==> s'.stage[u] == s.stage[u]
    ensures forall u :: u in s.stage && u != t ==>
              && u in s'.m.pc && WriterAt(s'.isAsync, s'.stage[u], s'.m.pc[u])
              && Writers(s')[u] == Writers(s)[u]
    ensures s.consumer != t ==> ConsumerAt(s.hand, s'.m.pc[s.consumer])
  {
  }

  /** The writers' places change as one thread's place does. */
  lemma OneMoves(s: System, s': System, t: Thread)
    requires Places(s) && t in s.stage && s'.isAsync == s.isAsync && s'.consumer == s.consumer && s'.hand == s.hand
    requires s'.m.pc.Keys == s.m.pc.Keys && s'.stage.Keys == s.stage.Keys
    requires forall u :: u in s.m.pc && u != t ==> s'.m.pc[u] == s.m.pc[u] || (s.m.pc[u].Asleep? && s'.m.pc[u].Woken?)
    requires forall u :: u in s.stage && u != t ==> s'.stage[u] == s.stage[u]
    requires WriterAt(s'.isAsync, s'.stage[t], s'.m.pc[t])
    ensures Places(s') && Writers(s') == Writers(s)[t := AbsPc(s'.stage[t], s'.m.pc[t])]
  {
    OthersStay(s, s', t);
    hide AbsPc, WriterAt, ConsumerAt;
  }

  /** A step inside full(). */
  lemma AskRefines(s: System, t: Thread, line: Text)
    requires Places(s) && t in s.stage && s.stage[t].Has?
    ensures var s' := Write(s, t, line);
            Places(s') && Abs(s') == if WriterSeen(s, t) then AsyncLog.Step(Abs(s), Writer(t, line)) else Abs(s)
  {
    var s' := Write(s, t, line);
    assert WriterAt(s.isAsync, s.stage[t], s.m.pc[t]);
    assert Writers(s) == Writers(s)[t := Writers(s)[t]];
    if s.m.pc[t].Outside? && !s.isAsync {
      OneMoves(s, s', t);
    } else {
      MonitorMoves(s.m, t, BlockQueue.Asking, false);
      AskMoves(s.m, t);
      OneMoves(s, s', t);
    }
    hide BlockQueue.Step, Places, Writers;
  }

  /** A step inside push(). */
  lemma PushRefines(s: System, t: Thread, line: Text)
    requires Places(s) && t in s.stage && s.stage[t].Room?
    ensures var s' := Write(s, t, line);
            Places(s') && Abs(s') == if WriterSeen(s, t) then AsyncLog.Step(Abs(s), Writer(t, line)) else Abs(s)
  {
    var s' := Write(s, t, line);
    assert WriterAt(s.isAsync, s.stage[t], s.m.pc[t]);
    assert Writers(s) == Writers(s)[t := Writers(s)[t]];
    MonitorMoves(s.m, t, BlockQueue.Pushing(s.stage[t].line), false);
    PushMoves(s.m, t, s.stage[t].line);
    OneMoves(s, s', t);
    hide BlockQueue.Step, Places, Writers;
  }

  /** A writer's step is a step of AsyncLog when it is seen, and otherwise changes nothing there. */
  lemma WriteRefines(s: System, t: Thread, line: Text)
    requires Places(s) && t in s.stage
    ensures var s' := Write(s, t, line);
            Places(s') && Abs(s') == if WriterSeen(s, t) then AsyncLog.Step(Abs(s), Writer(t, line)) else Abs(s)
  {
    match s.stage[t]
    case Has(_) => AskRefines(s, t, line);
    case Room(_) => PushRefines(s, t, line);
    case _ =>
      OneMoves(s, Write(s, t, line), t);
      hide BlockQueue.Step, Places, Writers;
  }

  /** pop() under the mutex: taking the front is the only step that is seen from outside. */
  lemma PopMoves(m: BlockQueue.Monitor<Text>, c: Thread, fails: bool)
    requires c in m.pc && (ConsumerAt(None, m.pc[c]) || m.pc[c] == BlockQueue.Leaving(true))
    ensures var m' := BlockQueue.Step(m, BlockQueue.Act(c, BlockQueue.Popping, fails));
            && var taken := m.pc[c].Inside? && m.queue != [];
            && m'.queue == (if taken then m.queue[1..] else m.queue) && m'.pushed == m.pushed && c in m'.pc
            && ConsumerAt(if taken then Some(m.queue[0]) else None, m'.pc[c])
            && (m.pc[c] == BlockQueue.Leaving(true) ==> m'.pc[c].Outside?)
  {
  }

  /** What a step inside pop() changes. */
  lemma PopShape(s: System, fails: bool)
    requires Places(s) && !s.ended && !(s.m.pc[s.consumer].Outside? && s.hand.Some?)
    ensures var s' := Consume(s, fails);
            var taken := s.m.pc[s.consumer].Inside? && s.m.queue != [];
            && s' == s.(m := s'.m, hand := if taken then Some(s.m.queue[0]) else s.hand, ended := s'.ended)
            && s'.m.queue == (if taken then s.m.queue[1..] else s.m.queue)
            && s'.m.pushed == s.m.pushed && s'.m.max == s.m.max && s'.m.pc.Keys == s.m.pc.Keys
            && ConsumerAt(s'.hand, s'.m.pc[s.consumer])
            && (taken ==> s.hand.None?)
            && forall u :: u in s.m.pc && u != s.consumer ==>
                 s'.m.pc[u] == s.m.pc[u] || (s.m.pc[u].Asleep? && s'.m.pc[u].Woken?)
  {
    MonitorMoves(s.m, s.consumer, BlockQueue.Popping, fails);
    PopMoves(s.m, s.consumer, fails);
    hide BlockQueue.Step, WriterAt;
  }

  /** A step inside pop(). */
  lemma PopRefines(s: System, fails: bool)
    requires Places(s) && !s.ended && !(s.m.pc[s.consumer].Outside? && s.hand.Some?)
    ensures var s' := Consume(s, fails);
            Places(s') && Abs(s') == if ConsumerSeen(s) then AsyncLog.Step(Abs(s), Consumer) else Abs(s)
  {
    hide Consume;
    PopShape(s, fails);
    OthersStay(s, Consume(s, fails), s.consumer);
    hide AbsPc, WriterAt, ConsumerAt;
    assert Writers(Consume(s, fails)) == Writers(s);
  }

  /** So is a step of the consumer. */
  lemma ConsumeRefines(s: System, fails: bool)
    requires Places(s)
    ensures var s' := Consume(s, fails);
            Places(s') && Abs(s') == if ConsumerSeen(s) then AsyncLog.Step(Abs(s), Consumer) else Abs(s)
  {
    if s.ended || (s.m.pc[s.consumer].Outside? && s.hand.Some?) {
      hide BlockQueue.Step;
      assert Writers(Consume(s, fails)) == Writers(s);
    } else {
      PopRefines(s, fails);
    }
  }

  lemma StepRefines(s: System, a: Move) returns (done: seq<AsyncLog.Act>)
    requires Places(s)
    ensures Places(Step(s, a)) && Abs(Step(s, a)) == Run(AsyncLog.Step, Abs(s), done)
  {
    hide Places, Abs, Write, Consume;
    var b := if a.t == s.consumer then Consumer else Writer(a.t, a.line);
    var s' := Step(s, a);
    assert [b][1..] == [];
    assert Run(AsyncLog.Step, Abs(s), [b]) == Run(AsyncLog.Step, AsyncLog.Step(Abs(s), b), []);
    if a.t == s.consumer && a.t in s.m.pc {
      ConsumeRefines(s, a.fails);
    } else if a.t in s.stage && a.t in s.m.pc {
      WriteRefines(s, a.t, a.line);
    }
    done := if Abs(s') == Abs(s) then [] else [b];
  }

  /** Every run of the system with its monitor is a run of the system in which each call on the queue is one step:
      same file, same queue, same lines in the hands of writers and consumer, same losses. */
  lemma {:induction false} RunRefines(s: System, moves: seq<Move>) returns (done: seq<AsyncLog.Act>)
    requires Places(s)
    ensures Places(Run(Step, s, moves)) && Abs(Run(Step, s, moves)) == Run(AsyncLog.Step, Abs(s), done)
    decreases |moves|
  {
    hide Places, Abs, Step;
    if moves == [] {
      done := [];
    } else {
      var first := StepRefines(s, moves[0]);
      var more := RunRefines(Step(s, moves[0]), moves[1..]);
      RunConcat(AsyncLog.Step, Abs(s), first, more);
      done := first + more;
    }
  }

  lemma MonitorSteps(s: System, a: Move) returns (done: seq<BlockQueue.Act<Text>>)
    ensures Step(s, a).m == Run(BlockQueue.Step, s.m, done)
  {
    var call := if a.t == s.consumer then BlockQueue.Popping
                else if a.t in s.stage && s.stage[a.t].Room? then BlockQueue.Pushing(s.stage[a.t].line)
                else BlockQueue.Asking;
    var b := BlockQueue.Act(a.t, call, a.t == s.consumer && a.fails);
    assert [b][1..] == [];
    assert Run(BlockQueue.Step, s.m, [b]) == Run(BlockQueue.Step, BlockQueue.Step(s.m, b), []);
    hide BlockQueue.Step;
    done := if Step(s, a).m == s.m then [] else [b];
  }

  /** Its monitor is in a state of a run of BlockQueue. */
  lemma {:induction false} MonitorRuns(s: System, moves: seq<Move>) returns (done: seq<BlockQueue.Act<Text>>)
    ensures Run(Step, s, moves).m == Run(BlockQueue.Step, s.m, done)
    decreases |moves|
  {
    hide Step;
    if moves == [] {
      done := [];
    } else {
      var first := MonitorSteps(s, moves[0]);
      var more := MonitorRuns(Step(s, moves[0]), moves[1..]);
      RunConcat(BlockQueue.Step, s.m, first, more);
      done := first + more;
    }
  }

  /** The consumer does not sleep beside a queued line while the mutex is free. */
  lemma ConsumerWakes(writers: set<Thread>, consumer: Thread, max: nat, isAsync: bool, moves: seq<Move>)
    requires consumer !in writers
    ensures var s := Run(Step, Init(writers, consumer, max, isAsync), moves);
            consumer in s.m.pc && (s.m.holder.None? && s.m.pc[consumer].Asleep? ==> s.m.queue == [])
  {
    var s := Init(writers, consumer, max, isAsync);
    StartsWell(writers, consumer, max, isAsync);
    ConsumerStays(s, moves);
    var moved := RunRefines(s, moves);
    hide Step, BlockQueue.Step;
    var done := MonitorRuns(s, moves);
    BlockQueue.MonitorSafety(writers + {consumer}, max, done);
  }

  lemma {:induction false} ConsumerStays(s: System, moves: seq<Move>)
    ensures Run(Step, s, moves).consumer == s.consumer
    decreases |moves|
  {
    if moves != [] {
      ConsumerStays(Step(s, moves[0]), moves[1..]);
    }
  }

  lemma StartsWell(writers: set<Thread>, consumer: Thread, max: nat, isAsync: bool)
    requires consumer !in writers
    ensures var s := Init(writers, consumer, max, isAsync);
            Places(s) && Abs(s) == AsyncLog.Init(writers, max, isAsync)
  {
    var s := Init(writers, consumer, max, isAsync);
    assert Writers(s) == AsyncLog.Init(writers, max, isAsync).pc;
  }

  /** What AsyncLog proves holds with the monitor's own steps: no line is duplicated, queued lines reach the file in
      the order of their pushes, and with a single writer none is lost, whatever the waits do. */
  lemma LogIsSafe(writers: set<Thread>, consumer: Thread, max: nat, isAsync: bool, moves: seq<Move>, l: Text)
    requires consumer !in writers
    ensures var s := Run(Step, Init(writers, consumer, max, isAsync), moves);
            && Accounted(Abs(s), l) && |s.m.queue| <= max
            && s.m.pushed == QueuedLines(s.file) + InHand(Abs(s)) + s.m.queue
            && ((forall t, u :: t in writers && u in writers ==> t == u) ==> s.lost == [])
  {
    hide Accounted, Step, Places, Writers;
    StartsWell(writers, consumer, max, isAsync);
    var done := RunRefines(Init(writers, consumer, max, isAsync), moves);
    NothingDuplicated(writers, max, isAsync, done, l);
    if forall t, u :: t in writers && u in writers ==> t == u {
      OneWriterKeepsRoom(writers, max, isAsync, done);
    }
  }
}
