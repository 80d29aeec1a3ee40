/**
 Progress of the log: what the threads that are under way can still bring about by themselves.  No new call, no
 failing wait and no spurious wakeup is needed.
 */
module LogProgress {
  import opened CString
  import opened Interleaving
  import AsyncLog
  import opened LogSystem
  import BlockQueue

  /** Every thread has its place, the monitor's invariants hold, and a consumer that is done stands outside. */
  ghost predicate Good(s: System) {
    && Places(s) && BlockQueue.Inv(s.m) && s.m.pc.Keys == s.stage.Keys + {s.consumer}
    && (s.ended ==> s.hand.None? && s.m.pc[s.consumer].Outside?)
  }

  lemma MonitorKeeps(m: BlockQueue.Monitor<AsyncLog.Text>, a: BlockQueue.Act<AsyncLog.Text>)
    requires BlockQueue.Inv(m)
    ensures BlockQueue.Inv(BlockQueue.Step(m, a))
  {
    hide BlockQueue.Step, BlockQueue.WakeInv, BlockQueue.QueueInv, BlockQueue.LockInv;
    BlockQueue.LockKeeps(m, a);
    BlockQueue.WakeKeeps(m, a);
    BlockQueue.QueueKeeps(m, a);
  }

  /** A step of the system is a step of its monitor or none. */
  lemma StepKeepsMonitor(s: System, a: Move)
    requires BlockQueue.Inv(s.m)
    ensures BlockQueue.Inv(Step(s, a).m)
  {
    var call := if a.t == s.consumer then BlockQueue.Popping
                else if a.t in s.stage && s.stage[a.t].Room? then BlockQueue.Pushing(s.stage[a.t].line)
                else BlockQueue.Asking;
    var b := BlockQueue.Act(a.t, call, a.t == s.consumer && a.fails);
    MonitorKeeps(s.m, b);
    hide BlockQueue.Step, BlockQueue.Inv;
    assert Step(s, a).m == s.m || Step(s, a).m == BlockQueue.Step(s.m, b);
  }

  lemma GoodKeeps(s: System, a: Move)
    requires Good(s)
    ensures Good(Step(s, a))
  {
    StepKeepsMonitor(s, a);
    var done := StepRefines(s, a);
    StepKeepsThreads(s, a);
    hide Places, BlockQueue.Inv, Step;
  }

  lemma StepKeepsThreads(s: System, a: Move)
    requires Places(s) && s.m.pc.Keys == s.stage.Keys + {s.consumer}
    requires s.ended ==> s.hand.None? && s.m.pc[s.consumer].Outside?
    ensures var s' := Step(s, a);
            && s'.m.pc.Keys == s'.stage.Keys + {s'.consumer} && s'.consumer == s.consumer
            && s'.stage.Keys == s.stage.Keys
            && (s'.ended ==> s'.hand.None? && s'.m.pc[s'.consumer].Outside?)
  {
    if a.t == s.consumer {
      ConsumerKeepsThreads(s, a.fails);
    } else if a.t in s.stage {
      WriterKeepsThreads(s, a.t, a.line);
    }
    hide Write, Consume;
  }

  lemma ConsumerKeepsThreads(s: System, fails: bool)
    requires Places(s) && (s.ended ==> s.hand.None? && s.m.pc[s.consumer].Outside?)
    ensures var s' := Consume(s, fails);
            && s'.m.pc.Keys == s.m.pc.Keys && s'.consumer == s.consumer && s'.stage == s.stage
            && (s'.ended ==> s'.hand.None? && s'.m.pc[s'.consumer].Outside?)
  {
    if !s.ended && !(s.m.pc[s.consumer].Outside? && s.hand.Some?) {
      MonitorMoves(s.m, s.consumer, BlockQueue.Popping, fails);
      hide WriterAt;
    }
  }

  lemma WriterKeepsThreads(s: System, t: AsyncLog.Thread, line: AsyncLog.Text)
    requires Places(s) && t in s.stage
    ensures var s' := Write(s, t, line);
            && s'.m.pc.Keys == s.m.pc.Keys && s'.consumer == s.consumer && s'.stage.Keys == s.stage.Keys
            && s'.hand == s.hand && s'.ended == s.ended
            && (s.m.pc[s.consumer].Outside? ==> s'.m.pc[s.consumer].Outside?)
  {
    MonitorMoves(s.m, t, BlockQueue.Asking, false);
    if s.stage[t].Room? {
      MonitorMoves(s.m, t, BlockQueue.Pushing(s.stage[t].line), false);
    }
    hide BlockQueue.Step, WriterAt, ConsumerAt;
  }

  lemma {:induction false} Reached(s: System, moves: seq<Move>)
    requires Good(s)
    ensures Good(Run(Step, s, moves))
    decreases |moves|
  {
    hide Good, Step;
    if moves != [] {
      GoodKeeps(s, moves[0]);
      Reached(Step(s, moves[0]), moves[1..]);
    }
  }

  lemma StartsGood(writers: set<AsyncLog.Thread>, consumer: AsyncLog.Thread, max: nat, isAsync: bool)
    requires consumer !in writers
    ensures Good(Init(writers, consumer, max, isAsync))
  {
    StartsWell(writers, consumer, max, isAsync);
  }

  // ---- steps of threads that are under way ----

  /** A step that changes something, by the consumer or by a writer inside write_log; no wait fails in it, and no
      sleeper wakes of itself. */
  ghost predicate UnderWay(s: System, a: Move) {
    && a.t in s.m.pc && (a.t == s.consumer || (a.t in s.stage && !s.stage[a.t].Idle?))
    && !a.fails && !s.m.pc[a.t].Asleep? && Step(s, a) != s
  }

  ghost predicate Moves(s: System, moves: seq<Move>)
    decreases |moves|
  {
    moves == [] || (UnderWay(s, moves[0]) && Moves(Step(s, moves[0]), moves[1..]))
  }

  ghost function Go(t: AsyncLog.Thread): Move {
    Move(t, AsyncLog.Text([]), false)
  }

  lemma {:induction false} MovesConcat(s: System, a: seq<Move>, b: seq<Move>)
    requires Moves(s, a) && Moves(Run(Step, s, a), b)
    ensures Moves(s, a + b) && Run(Step, s, a + b) == Run(Step, Run(Step, s, a), b)
    decreases |a|
  {
    hide UnderWay, Step;
    if a == [] {
      assert a + b == b;
    } else {
      assert (a + b)[0] == a[0] && (a + b)[1..] == a[1..] + b;
      MovesConcat(Step(s, a[0]), a[1..], b);
    }
  }

  /** One step, and what comes after it. */
  lemma FirstThen(s: System, a: Move, rest: seq<Move>)
    requires UnderWay(s, a) && Moves(Step(s, a), rest)
    ensures Moves(s, [a] + rest) && Run(Step, s, [a] + rest) == Run(Step, Step(s, a), rest)
  {
    hide UnderWay, Step;
    assert ([a] + rest)[0] == a && ([a] + rest)[1..] == rest;
  }

  /** What the steps of other threads leave of thread `t`: its stage, and its place unless it is woken. */
  ghost predicate Keeps(s: System, r: System, t: AsyncLog.Thread) {
    && r.stage.Keys == s.stage.Keys && r.consumer == s.consumer && r.isAsync == s.isAsync && r.m.max == s.m.max
    && r.m.pc.Keys == s.m.pc.Keys
    && (t in s.stage ==> r.stage[t] == s.stage[t])
    && (t in s.m.pc ==> r.m.pc[t] == s.m.pc[t] || (s.m.pc[t].Asleep? && r.m.pc[t].Woken?))
    && (t == s.consumer ==> r.hand == s.hand && r.ended == s.ended && s.m.queue <= r.m.queue)
    && s.file <= r.file && s.m.pushed <= r.m.pushed && s.lost <= r.lost
  }

  /** How many steps the holder of the mutex is from giving it back. */
  function UntilFree(p: BlockQueue.Pc<AsyncLog.Text>): nat {
    if p.Inside? then 2 else if p.ToBroadcast? then 1 else 0
  }

  /** A step of the thread that holds the mutex. */
  lemma HolderMoves(m: BlockQueue.Monitor<AsyncLog.Text>, h: AsyncLog.Thread, call: BlockQueue.Call<AsyncLog.Text>)
    requires m.holder == Some(h) && h in m.pc && BlockQueue.InLock(m.pc[h])
    requires m.pc[h] != BlockQueue.Inside(BlockQueue.Clearing)
    ensures var r := BlockQueue.Step(m, BlockQueue.Act(h, call, false));
            && r.pc.Keys == m.pc.Keys && r.max == m.max && r.pc[h] != m.pc[h] && m.pushed <= r.pushed
            && (forall t :: t in m.pc && t != h ==> r.pc[t] == m.pc[t] || (m.pc[t].Asleep? && r.pc[t].Woken?))
            && (m.pc[h] != BlockQueue.Inside(BlockQueue.Popping) ==> m.queue <= r.queue)
            && (r.holder.None? || (r.holder == Some(h) && UntilFree(r.pc[h]) < UntilFree(m.pc[h])))
  {
  }

  /** One step of the holder: nothing is written to the file, and the holder comes nearer to giving the mutex back. */
  lemma HolderSteps(s: System, h: AsyncLog.Thread)
    requires Good(s) && s.m.holder == Some(h)
    ensures h in s.m.pc && UnderWay(s, Go(h))
    ensures var r := Step(s, Go(h));
            && Good(r) && r.file == s.file && (forall t :: t != h ==> Keeps(s, r, t))
            && (r.m.holder.None? || (r.m.holder == Some(h) && UntilFree(r.m.pc[h]) < UntilFree(s.m.pc[h])))
  {
    GoodKeeps(s, Go(h));
    assert h in s.m.pc && BlockQueue.InLock(s.m.pc[h]);
    hide Good, BlockQueue.Inv;
    assert Places(s) by {
      assert Good(s);
    }
    if h == s.consumer {
      ConsumerHolds(s);
    } else {
      WriterHolds(s, h);
    }
  }

  lemma ConsumerHolds(s: System)
    requires Places(s) && s.m.holder == Some(s.consumer) && BlockQueue.InLock(s.m.pc[s.consumer]) && !s.ended
    ensures var r := Consume(s, false);
            && r != s && r.file == s.file && (forall t :: t != s.consumer ==> Keeps(s, r, t))
            && (r.m.holder.None? || (r.m.holder == Some(s.consumer)
                && UntilFree(r.m.pc[s.consumer]) < UntilFree(s.m.pc[s.consumer])))
  {
    HolderMoves(s.m, s.consumer, BlockQueue.Popping);
    hide BlockQueue.Step, WriterAt;
  }

  lemma WriterHolds(s: System, h: AsyncLog.Thread)
    requires Places(s) && s.m.holder == Some(h) && h in s.stage && BlockQueue.InLock(s.m.pc[h])
    ensures var r := Write(s, h, AsyncLog.Text([]));
            && r != s && r.file == s.file && (forall t :: t != h ==> Keeps(s, r, t))
            && (r.m.holder.None? || (r.m.holder == Some(h) && UntilFree(r.m.pc[h]) < UntilFree(s.m.pc[h])))
  {
    assert WriterAt(s.isAsync, s.stage[h], s.m.pc[h]);
    HolderMoves(s.m, h, BlockQueue.Asking);
    if s.stage[h].Room? {
      HolderMoves(s.m, h, BlockQueue.Pushing(s.stage[h].line));
    }
    hide BlockQueue.Step, ConsumerAt;
  }

  lemma KeepsMore(s: System, u: System, r: System, t: AsyncLog.Thread)
    requires Keeps(s, u, t) && Keeps(u, r, t)
    ensures Keeps(s, r, t)
  {
  }

  /** The holder of the mutex can give it back by itself. */
  lemma FreeMutex(s: System, h: AsyncLog.Thread) returns (moves: seq<Move>)
    requires Good(s) && s.m.holder == Some(h)
    ensures Moves(s, moves)
    ensures var r := Run(Step, s, moves);
            Good(r) && r.m.holder.None? && r.file == s.file && forall t :: t != h ==> Keeps(s, r, t)
    decreases UntilFree(if h in s.m.pc then s.m.pc[h] else BlockQueue.Outside)
  {
    HolderSteps(s, h);
    var u := Step(s, Go(h));
    hide Good, Keeps, UnderWay, Step, Run, UntilFree;
    if u.m.holder.None? {
      moves := [Go(h)];
      OneMove(s, Go(h));
    } else {
      assert h in u.m.pc by {
        HolderSteps(u, h);
      }
      var rest := FreeMutex(u, h);
      FirstThen(s, Go(h), rest);
      moves := [Go(h)] + rest;
      forall t | t != h
        ensures Keeps(s, Run(Step, s, moves), t)
      {
        KeepsMore(s, u, Run(Step, s, moves), t);
      }
    }
  }

  lemma OneMove(s: System, a: Move)
    requires UnderWay(s, a)
    ensures Moves(s, [a]) && Run(Step, s, [a]) == Step(s, a)
  {
    hide UnderWay, Step;
    assert [a] + [] == [a];
    FirstThen(s, a, []);
  }

  // ---- the consumer ----

  /** The oldest line that has been pushed and is not yet in the file. */
  function Oldest(s: System): AsyncLog.Text
    requires s.hand.Some? || s.m.queue != []
  {
    if s.hand.Some? then s.hand.value else s.m.queue[0]
  }

  /** A wait of the consumer has failed: its loop is over, or will be when it has left pop. */
  ghost predicate Ending(s: System) {
    s.ended || (s.consumer in s.m.pc && s.m.pc[s.consumer] == BlockQueue.Leaving(false))
  }

  /** How many steps with the mutex free the consumer is from the front of the queue. */
  function UntilPop(p: BlockQueue.Pc<AsyncLog.Text>): nat {
    if p.Leaving? then 3 else if p.Outside? then 2 else if p.Inside? then 0 else 1
  }

  ghost predicate Writes(s: System, moves: seq<Move>, l: AsyncLog.Text) {
    Moves(s, moves) && Run(Step, s, moves).file == s.file + [AsyncLog.Queued(l)]
  }

  lemma WritesLater(s: System, a: Move, rest: seq<Move>, l: AsyncLog.Text)
    requires UnderWay(s, a) && Step(s, a).file == s.file && Writes(Step(s, a), rest, l)
    ensures Writes(s, [a] + rest, l)
  {
    hide UnderWay, Step;
    FirstThen(s, a, rest);
  }

  /** The line in its hand: unlock, and write. */
  lemma WriteHand(s: System) returns (moves: seq<Move>)
    requires Good(s) && s.hand.Some?
    ensures Writes(s, moves, s.hand.value)
    decreases s.m.pc[s.consumer].Leaving?
  {
    var a := Go(s.consumer);
    GoodKeeps(s, a);
    hide BlockQueue.Inv, WriterAt;
    if s.m.pc[s.consumer].Outside? {
      OneMove(s, a);
      moves := [a];
    } else {
      var rest := WriteHand(Step(s, a));
      WritesLater(s, a, rest, s.hand.value);
      moves := [a] + rest;
    }
  }

  /** With the mutex free or in its own hands, the consumer gets to the front of the queue. */
  lemma PopFront(s: System) returns (moves: seq<Move>)
    requires Good(s) && !Ending(s) && s.hand.None? && s.m.queue != []
    requires s.m.holder.None? || s.m.holder == Some(s.consumer)
    ensures Writes(s, moves, s.m.queue[0])
    decreases UntilPop(s.m.pc[s.consumer])
  {
    var a := Go(s.consumer);
    GoodKeeps(s, a);
    ConsumerGoes(s);
    hide Good, BlockQueue.Inv, Step;
    var r := Step(s, a);
    var rest;
    if r.hand.Some? {
      rest := WriteHand(r);
    } else {
      rest := PopFront(r);
    }
    WritesLater(s, a, rest, s.m.queue[0]);
    moves := [a] + rest;
  }

  lemma ConsumerGoes(s: System)
    requires Good(s) && !Ending(s) && s.hand.None? && s.m.queue != []
    requires s.m.holder.None? || s.m.holder == Some(s.consumer)
    ensures UnderWay(s, Go(s.consumer))
    ensures var r := Step(s, Go(s.consumer));
            && r.file == s.file && r.consumer == s.consumer && r.consumer in r.m.pc
            && if s.m.pc[s.consumer].Inside? then r.hand == Some(s.m.queue[0])
               else && r.hand.None? && !Ending(r) && r.m.queue == s.m.queue
                    && (r.m.holder.None? || r.m.holder == Some(s.consumer))
                    && UntilPop(r.m.pc[s.consumer]) < UntilPop(s.m.pc[s.consumer])
  {
    hide WriterAt, BlockQueue.QueueInv;
  }

  /** No line is stranded: in every reachable state in which a pushed line is not yet in the file and no wait of
      the consumer has failed, the threads that are under way can bring the oldest such line into the file. */
  lemma OldestIsWritten(s: System) returns (moves: seq<Move>)
    requires Good(s) && !Ending(s) && (s.hand.Some? || s.m.queue != [])
    ensures Moves(s, moves) && Run(Step, s, moves).file == s.file + [AsyncLog.Queued(Oldest(s))]
  {
    if s.hand.Some? {
      moves := WriteHand(s);
    } else if s.m.holder.None? || s.m.holder == Some(s.consumer) {
      moves := PopFront(s);
    } else {
      var first := FreeMutex(s, s.m.holder.value);
      var r := Run(Step, s, first);
      assert Keeps(s, r, s.consumer);
      hide Good, Run, Step;
      var rest := PopFront(r);
      MovesConcat(s, first, rest);
      moves := first + rest;
    }
  }

  lemma EndingStays(s: System, a: Move)
    requires Good(s) && Ending(s)
    ensures var r := Step(s, a);
            Ending(r) && AsyncLog.QueuedLines(r.file) == AsyncLog.QueuedLines(s.file)
  {
    if a.t == s.consumer {
      hide WriterAt, AsyncLog.QueuedLines;
    } else if a.t in s.stage {
      EndingKept(s, a.t, a.line);
      hide Write, AsyncLog.QueuedLines;
    }
  }

  lemma EndingKept(s: System, t: AsyncLog.Thread, line: AsyncLog.Text)
    requires Good(s) && Ending(s) && t in s.stage
    ensures var r := Write(s, t, line);
            Ending(r) && AsyncLog.QueuedLines(r.file) == AsyncLog.QueuedLines(s.file)
  {
    if s.stage[t].NoRoom? {
      AsyncLog.Appended(s.file, AsyncLog.Direct(s.stage[t].line));
    }
    MonitorMoves(s.m, t, BlockQueue.Asking, false);
    if s.stage[t].Room? {
      MonitorMoves(s.m, t, BlockQueue.Pushing(s.stage[t].line), false);
    }
    hide BlockQueue.Step, BlockQueue.Inv, WriterAt, ConsumerAt, AsyncLog.QueuedLines;
  }

  /** After a failed wait of the consumer no line leaves the queue for the file, whatever happens. */
  lemma {:induction false} EndedForGood(s: System, moves: seq<Move>)
    requires Good(s) && Ending(s)
    ensures AsyncLog.QueuedLines(Run(Step, s, moves).file) == AsyncLog.QueuedLines(s.file)
    decreases |moves|
  {
    hide Good, Ending, Step, AsyncLog.QueuedLines;
    if moves != [] {
      EndingStays(s, moves[0]);
      GoodKeeps(s, moves[0]);
      EndedForGood(Step(s, moves[0]), moves[1..]);
    }
  }

  /** In every reachable state in which a pushed line is not yet in the file: the oldest such line can still get
      there if and only if no wait of the consumer has failed. */
  lemma LinesReachFile(writers: set<AsyncLog.Thread>, consumer: AsyncLog.Thread, max: nat, isAsync: bool,
                       before: seq<Move>)
    requires consumer !in writers
    ensures var s := Run(Step, Init(writers, consumer, max, isAsync), before);
            s.hand.Some? || s.m.queue != [] ==>
              ((exists moves :: AsyncLog.QueuedLines(Run(Step, s, moves).file) ==
                                AsyncLog.QueuedLines(s.file) + [Oldest(s)])
               <==> !Ending(s))
  {
    var s := Run(Step, Init(writers, consumer, max, isAsync), before);
    StartsGood(writers, consumer, max, isAsync);
    Reached(Init(writers, consumer, max, isAsync), before);
    hide Good, Ending, Step, AsyncLog.QueuedLines;
    if s.hand.Some? || s.m.queue != [] {
      if Ending(s) {
        forall moves
          ensures AsyncLog.QueuedLines(Run(Step, s, moves).file) == AsyncLog.QueuedLines(s.file)
        {
          EndedForGood(s, moves);
        }
      } else {
        var moves := OldestIsWritten(s);
        AsyncLog.Appended(s.file, AsyncLog.Queued(Oldest(s)));
      }
    }
  }

  // ---- the writers ----

  /** How many steps with the mutex free a writer is from its return. */
  function UntilIdle(g: Stage, p: BlockQueue.Pc<AsyncLog.Text>): nat {
    match g
    case Idle => 0
    case NoRoom(_) => 1
    case Has(_) => 6 + if p.Outside? then 3 else if p.Calling? then 2 else if p.Inside? then 1 else 0
    case Room(_) =>
      1 + if p.Outside? then 4 else if p.Calling? then 3 else if p.Inside? then 2 else if p.ToBroadcast? then 1 else 0
  }

  /** Thread `t` is in write_log with the line, and has neither pushed nor written it. */
  ghost predicate Carries(s: System, t: AsyncLog.Thread, l: AsyncLog.Text) {
    && t in s.stage && t in s.m.pc && !s.stage[t].Idle? && s.stage[t].line == l
    && !(s.stage[t].Room? && (s.m.pc[t].ToBroadcast? || s.m.pc[t].Leaving?))
  }

  /** From `s` to `r` the line has been written, or pushed, or lost in a failed push. */
  ghost predicate Placed(s: System, r: System, l: AsyncLog.Text) {
    || Added(s.file, r.file, AsyncLog.Direct(l)) || Added(s.m.pushed, r.m.pushed, l) || Added(s.lost, r.lost, l)
  }

  ghost predicate Grows(s: System, r: System) {
    s.file <= r.file && s.m.pushed <= r.m.pushed && s.lost <= r.lost
  }

  /** What a step of writer `t` from `s` to `r` brings about when it does not have to wait for the mutex. */
  ghost predicate Advances(s: System, r: System, t: AsyncLog.Thread)
    requires t in s.stage && t in s.m.pc && !s.stage[t].Idle?
  {
    && t in r.stage && t in r.m.pc && Grows(s, r)
    && UntilIdle(r.stage[t], r.m.pc[t]) < UntilIdle(s.stage[t], s.m.pc[t])
    && (r.stage[t].Idle? || r.stage[t].line == s.stage[t].line)
    && (Carries(s, t, s.stage[t].line) ==> Carries(r, t, s.stage[t].line) || Placed(s, r, s.stage[t].line))
  }

  lemma AskGoes(s: System, t: AsyncLog.Thread)
    requires Places(s) && t in s.stage && s.stage[t].Has? && (s.m.pc[t].Calling? ==> s.m.holder.None?)
    ensures Advances(s, Write(s, t, AsyncLog.Text([])), t)
  {
    assert WriterAt(s.isAsync, s.stage[t], s.m.pc[t]);
    if !(s.m.pc[t].Outside? && !s.isAsync) {
      AskMoves(s.m, t);
    }
    hide BlockQueue.Step, Places, Added;
  }

  lemma PushGoes(s: System, t: AsyncLog.Thread)
    requires Places(s) && t in s.stage && s.stage[t].Room? && (s.m.pc[t].Calling? ==> s.m.holder.None?)
    ensures Advances(s, Write(s, t, AsyncLog.Text([])), t)
  {
    var l := s.stage[t].line;
    assert WriterAt(s.isAsync, s.stage[t], s.m.pc[t]);
    PushMoves(s.m, t, l);
    hide BlockQueue.Step, Places, Added;
    if s.m.pc[t].Inside? {
      AddedOne(s.m.pushed, s.m.pushed, l, s.m.pushed + [l]);
      AddedOne(s.lost, s.lost, l, s.lost + [l]);
    } else {
      hide Placed;
    }
  }

  lemma WriterGoes(s: System, t: AsyncLog.Thread)
    requires Good(s) && t in s.stage && !s.stage[t].Idle? && (s.m.pc[t].Calling? ==> s.m.holder.None?)
    ensures UnderWay(s, Go(t)) && Advances(s, Step(s, Go(t)), t)
  {
    match s.stage[t] {
      case NoRoom(l) =>
        hide Added, BlockQueue.Inv;
        AddedOne(s.file, s.file, AsyncLog.Direct(l), s.file + [AsyncLog.Direct(l)]);
      case Room(_) => PushGoes(s, t);
      case Has(_) => AskGoes(s, t);
    }
    assert !s.m.pc[t].Asleep? by {
      assert WriterAt(s.isAsync, s.stage[t], s.m.pc[t]);
    }
    hide Write, Places, BlockQueue.Inv, Carries, Placed, Grows;
  }

  lemma PlacedLater(s: System, u: System, r: System, l: AsyncLog.Text)
    requires Grows(s, u) && Grows(u, r) && (Placed(s, u, l) || Placed(u, r, l))
    ensures Placed(s, r, l)
  {
    var e := AsyncLog.Direct(l);
    if {
      case Added(s.file, u.file, e) =>
        assert u.file[|s.file|..] <= r.file[|s.file|..];
      case Added(s.m.pushed, u.m.pushed, l) =>
        assert u.m.pushed[|s.m.pushed|..] <= r.m.pushed[|s.m.pushed|..];
      case Added(s.lost, u.lost, l) =>
        assert u.lost[|s.lost|..] <= r.lost[|s.lost|..];
      case Added(u.file, r.file, e) => AddedLater(s.file, u.file, r.file, e);
      case Added(u.m.pushed, r.m.pushed, l) => AddedLater(s.m.pushed, u.m.pushed, r.m.pushed, l);
      case Added(u.lost, r.lost, l) => AddedLater(s.lost, u.lost, r.lost, l);
    }
  }

  /** A writer that does not have to wait takes a step and goes on. */
  lemma StepAndFinish(s: System, t: AsyncLog.Thread) returns (moves: seq<Move>)
    requires Good(s) && t in s.stage && !s.stage[t].Idle? && (s.m.pc[t].Calling? ==> s.m.holder.None?)
    ensures Finishes(s, moves, t)
    decreases UntilIdle(s.stage[t], s.m.pc[t]), 0
  {
    WriterGoes(s, t);
    GoodKeeps(s, Go(t));
    hide Good, Step, UnderWay, Carries, Placed, Grows;
    var r := Step(s, Go(t));
    if r.stage[t].Idle? {
      moves := [Go(t)];
      OneMove(s, Go(t));
      assert !Carries(r, t, s.stage[t].line) by {
        NotIdle(r, t, s.stage[t].line);
      }
    } else {
      var rest := Finish(r, t);
      FirstThen(s, Go(t), rest);
      moves := [Go(t)] + rest;
      Onward(s, r, Run(Step, r, rest), t);
    }
  }

  lemma NotIdle(s: System, t: AsyncLog.Thread, l: AsyncLog.Text)
    ensures Carries(s, t, l) ==> t in s.stage && !s.stage[t].Idle?
  {
  }

  lemma Onward(s: System, u: System, r: System, t: AsyncLog.Thread)
    requires t in s.stage && t in u.stage && !s.stage[t].Idle? && !u.stage[t].Idle?
    requires u.stage[t].line == s.stage[t].line
    requires Grows(s, u) && Grows(u, r)
    requires var l := s.stage[t].line;
             && (Carries(s, t, l) ==> Carries(u, t, l) || Placed(s, u, l)) && (Carries(u, t, l) ==> Placed(u, r, l))
    ensures Grows(s, r) && (Carries(s, t, s.stage[t].line) ==> Placed(s, r, s.stage[t].line))
  {
    var l := s.stage[t].line;
    hide Carries, Placed;
    if Carries(s, t, l) {
      PlacedLater(s, u, r, l);
    }
  }

  /** The moves bring writer `t` out of write_log, and its line to where it belongs. */
  ghost predicate Finishes(s: System, moves: seq<Move>, t: AsyncLog.Thread)
    requires t in s.stage && !s.stage[t].Idle?
  {
    && Moves(s, moves)
    && var r := Run(Step, s, moves);
    && t in r.stage && r.stage[t].Idle? && Grows(s, r)
    && (Carries(s, t, s.stage[t].line) ==> Placed(s, r, s.stage[t].line))
  }

  /** No writer is stranded: from every reachable state the threads that are under way can bring a writer out of
      write_log, with its line written, pushed, or lost in a failed push. */
  lemma Finish(s: System, t: AsyncLog.Thread) returns (moves: seq<Move>)
    requires Good(s) && t in s.stage && !s.stage[t].Idle?
    ensures Finishes(s, moves, t)
    decreases UntilIdle(s.stage[t], s.m.pc[t]), 1
  {
    if s.m.pc[t].Calling? && s.m.holder.Some? {
      assert s.m.holder != Some(t);
      var first := FreeMutex(s, s.m.holder.value);
      var u := Run(Step, s, first);
      assert Keeps(s, u, t);
      var rest := StepAndFinish(u, t);
      hide Good, Run, Step, Keeps, Placed;
      MovesConcat(s, first, rest);
      moves := first + rest;
      Onward(s, u, Run(Step, u, rest), t);
    } else {
      moves := StepAndFinish(s, t);
    }
  }

  /** A writer that has decided for the file, or whose log has no queue, writes its line with its own steps. */
  lemma WritesItself(s: System, t: AsyncLog.Thread) returns (moves: seq<Move>)
    requires Good(s) && t in s.stage && (s.stage[t].NoRoom? || (s.stage[t].Has? && !s.isAsync))
    ensures Moves(s, moves)
    ensures Run(Step, s, moves) ==
              s.(stage := s.stage[t := Idle], file := s.file + [AsyncLog.Direct(s.stage[t].line)])
    decreases s.stage[t].Has?
  {
    assert WriterAt(s.isAsync, s.stage[t], s.m.pc[t]);
    GoodKeeps(s, Go(t));
    hide BlockQueue.Inv, ConsumerAt, BlockQueue.Step;
    var u := Step(s, Go(t));
    if s.stage[t].NoRoom? {
      OneMove(s, Go(t));
      moves := [Go(t)];
    } else {
      var rest := WritesItself(u, t);
      FirstThen(s, Go(t), rest);
      moves := [Go(t)] + rest;
    }
  }
}
