/**
 Log::write_log and its consumer thread as interleaved steps; every call on the queue is one critical
 section of the monitor in BlockQueue.  For any number of threads that write to the log.
 */
module AsyncLog {
  import opened CString
  import opened Counting
  import opened Interleaving

  type Thread = nat

  /** One formatted line. */
  datatype Text = Text(bytes: seq<char>)

  /** A writer: outside, with a formatted line before full(), before push(), or before the direct write. */
  datatype Pc = Outside | Formatted(line: Text) | WillPush(line: Text) | WillWrite(line: Text)

  /** Which way a line came into the file. */
  datatype Entry = Direct(line: Text) | Queued(line: Text)

  /** `hand` is the line the consumer popped and has not yet written; `lost` collects the lines of failed
      pushes, whose result write_log ignores. */
  datatype Log = Log(queue: seq<Text>, max: nat, isAsync: bool, pc: map<Thread, Pc>, hand: Option<Text>,
                     file: seq<Entry>, formatted: seq<Text>, enqueued: seq<Text>, lost: seq<Text>)

  /** A step of writer `t` (called with `line` when it is outside), or of the consumer. */
  datatype Act = Writer(t: Thread, line: Text) | Consumer

  function Step(s: Log, a: Act): Log {
    match a
    case Consumer =>
      if s.hand.Some? then s.(file := s.file + [Queued(s.hand.value)], hand := None)
      else if |s.queue| == 0 then s
      else s.(hand := Some(s.queue[0]), queue := s.queue[1..])
    case Writer(t, line) =>
      if t !in s.pc then s else
      match s.pc[t]
      case Outside => s.(pc := s.pc[t := Formatted(line)], formatted := s.formatted + [line])
      case Formatted(l) => s.(pc := s.pc[t := if s.isAsync && |s.queue| < s.max then WillPush(l) else WillWrite(l)])
      case WillPush(l) =>
        if |s.queue| >= s.max then s.(pc := s.pc[t := Outside], lost := s.lost + [l])
        else s.(pc := s.pc[t := Outside], queue := s.queue + [l], enqueued := s.enqueued + [l])
      case WillWrite(l) => s.(pc := s.pc[t := Outside], file := s.file + [Direct(l)])
  }

  ghost function Has(l: Text): Pc -> bool {
    (p: Pc) => !p.Outside? && p.line == l
  }

  function Lines(file: seq<Entry>): seq<Text> {
    if file == [] then [] else Lines(file[..|file| - 1]) + [file[|file| - 1].line]
  }

  /** The lines of the file that came through the queue. */
  function QueuedLines(file: seq<Entry>): seq<Text> {
    if file == [] then []
    else QueuedLines(file[..|file| - 1]) + if file[|file| - 1].Queued? then [file[|file| - 1].line] else []
  }

  function InHand(s: Log): seq<Text> {
    if s.hand.Some? then [s.hand.value] else []
  }

  ghost function Copies(s: seq<Text>, l: Text): nat {
    multiset(s)[l]
  }

  /** Each formatted copy of `l` is in exactly one place: file, consumer's hand, queue, a writer's hand, or lost. */
  ghost predicate Accounted(s: Log, l: Text) {
    Copies(s.formatted, l) ==
      Copies(Lines(s.file), l) + Copies(InHand(s), l) + Copies(s.queue, l) + Count(s.pc, Has(l)) + Copies(s.lost, l)
  }

  /** What was pushed is, in order, what the file got through the queue, then the consumer's hand, then the queue. */
  ghost predicate InOrder(s: Log) {
    s.enqueued == QueuedLines(s.file) + InHand(s) + s.queue && |s.queue| <= s.max
  }

  lemma Appended(file: seq<Entry>, e: Entry)
    ensures Lines(file + [e]) == Lines(file) + [e.line]
    ensures QueuedLines(file + [e]) == QueuedLines(file) + if e.Queued? then [e.line] else []
  {
    assert (file + [e])[..|file|] == file;
  }

  lemma ConsumerAccounts(s: Log, l: Text)
    requires Accounted(s, l)
    ensures Accounted(Step(s, Consumer), l)
  {
    hide Lines, Copies;
    Single(l);
    if s.hand.Some? {
      Appended(s.file, Queued(s.hand.value));
      CopyMore(Lines(s.file), s.hand.value, l);
      CopyMore([], s.hand.value, l);
      assert InHand(s) == [] + [s.hand.value];
    } else if s.queue != [] {
      CopyLess(s.queue, l);
      CopyMore([], s.queue[0], l);
      assert InHand(Step(s, Consumer)) == [] + [s.queue[0]];
    }
  }

  /** The account after each kind of writer's step, given what the step does to the writers' hands. */
  lemma LineMoves(s: Log, pc': map<Thread, Pc>, m: Text, l: Text)
    requires Accounted(s, l)
    ensures Count(pc', Has(l)) == Count(s.pc, Has(l)) + One(m == l) ==>
              Accounted(s.(pc := pc', formatted := s.formatted + [m]), l)
    ensures Count(pc', Has(l)) == Count(s.pc, Has(l)) ==> Accounted(s.(pc := pc'), l)
    ensures Count(pc', Has(l)) + One(m == l) == Count(s.pc, Has(l)) ==>
              && Accounted(s.(pc := pc', lost := s.lost + [m]), l)
              && Accounted(s.(pc := pc', queue := s.queue + [m], enqueued := s.enqueued + [m]), l)
              && Accounted(s.(pc := pc', file := s.file + [Direct(m)]), l)
  {
    hide Lines, Count, Copies, Has;
    CopyMore(s.formatted, m, l);
    CopyMore(s.queue, m, l);
    CopyMore(s.lost, m, l);
    Appended(s.file, Direct(m));
    CopyMore(Lines(s.file), m, l);
  }

  lemma WriterAccounts(s: Log, t: Thread, line: Text, l: Text)
    requires Accounted(s, l)
    ensures Accounted(Step(s, Writer(t, line)), l)
  {
    hide Accounted, Count;
    if t in s.pc {
      match s.pc[t]
      case Outside =>
        CountMove(s.pc, t, Formatted(line), Has(l));
        LineMoves(s, s.pc[t := Formatted(line)], line, l);
      case Formatted(m) =>
        var p := if s.isAsync && |s.queue| < s.max then WillPush(m) else WillWrite(m);
        CountMove(s.pc, t, p, Has(l));
        LineMoves(s, s.pc[t := p], m, l);
      case WillPush(m) =>
        CountMove(s.pc, t, Outside, Has(l));
        LineMoves(s, s.pc[t := Outside], m, l);
      case WillWrite(m) =>
        CountMove(s.pc, t, Outside, Has(l));
        LineMoves(s, s.pc[t := Outside], m, l);
    }
  }

  lemma CopyMore(s: seq<Text>, x: Text, l: Text)
    ensures Copies(s + [x], l) == Copies(s, l) + One(x == l)
  {
  }

  lemma CopyLess(s: seq<Text>, l: Text)
    requires s != []
    ensures Copies(s, l) == One(s[0] == l) + Copies(s[1..], l)
  {
    assert s == [s[0]] + s[1..];
  }

  lemma Single(l: Text)
    ensures Copies([], l) == 0
  {
  }

  lemma AccountedKeeps(s: Log, a: Act, l: Text)
    requires Accounted(s, l)
    ensures Accounted(Step(s, a), l)
  {
    hide Accounted, Step;
    match a
    case Consumer => ConsumerAccounts(s, l);
    case Writer(t, line) => WriterAccounts(s, t, line, l);
  }

  lemma InOrderKeeps(s: Log, a: Act)
    requires InOrder(s)
    ensures InOrder(Step(s, a))
  {
    hide QueuedLines, Lines;
    match a
    case Consumer =>
      if s.hand.Some? {
        Appended(s.file, Queued(s.hand.value));
      } else if s.queue != [] {
        assert s.queue == [s.queue[0]] + s.queue[1..];
      }
    case Writer(t, line) =>
      if t in s.pc && s.pc[t].WillWrite? {
        Appended(s.file, Direct(s.pc[t].line));
      }
  }

  function Init(writers: set<Thread>, max: nat, isAsync: bool): Log {
    Log([], max, isAsync, map t | t in writers :: Outside, None, [], [], [], [])
  }

  ghost function Runs(writers: set<Thread>, max: nat, isAsync: bool, acts: seq<Act>): Log {
    Run(Step, Init(writers, max, isAsync), acts)
  }

  /** In every interleaving, every formatted line is in exactly one place, and the queued lines reach the file
      in the order in which they were pushed. */
  lemma NothingDuplicated(writers: set<Thread>, max: nat, isAsync: bool, acts: seq<Act>, l: Text)
    ensures var s := Runs(writers, max, isAsync, acts);
            Accounted(s, l) && s.enqueued == QueuedLines(s.file) + InHand(s) + s.queue && |s.queue| <= max
  {
    hide Accounted;
    var s := Init(writers, max, isAsync);
    NothingYet(writers, max, isAsync, l);
    var inv := (x: Log) => Accounted(x, l) && InOrder(x) && x.max == max;
    forall x, a | inv(x)
      ensures inv(Step(x, a))
    {
      AccountedKeeps(x, a, l);
      InOrderKeeps(x, a);
    }
    RunKeeps(Step, inv, s, acts);
  }

  lemma NothingYet(writers: set<Thread>, max: nat, isAsync: bool, l: Text)
    ensures Accounted(Init(writers, max, isAsync), l)
  {
    CountsNone(Init(writers, max, isAsync).pc, Has(l));
  }

  // ---- a failed push ----

  /** With a single writer, what full() said still holds when push() runs. */
  ghost predicate RoomKept(s: Log) {
    && (forall t, u :: t in s.pc && u in s.pc ==> t == u)
    && (forall t :: t in s.pc && s.pc[t].WillPush? ==> |s.queue| < s.max)
    && s.lost == []
  }

  lemma RoomStep(s: Log, a: Act)
    requires RoomKept(s)
    ensures RoomKept(Step(s, a))
  {
  }

  lemma RoomStays(s: Log, acts: seq<Act>)
    requires RoomKept(s)
    ensures RoomKept(Run(Step, s, acts))
  {
    forall x, a | RoomKept(x)
      ensures RoomKept(Step(x, a))
    {
      RoomStep(x, a);
    }
    RunKeeps(Step, RoomKept, s, acts);
  }

  lemma OneWriterKeepsRoom(writers: set<Thread>, max: nat, isAsync: bool, acts: seq<Act>)
    requires forall t, u :: t in writers && u in writers ==> t == u
    ensures RoomKept(Runs(writers, max, isAsync, acts))
  {
    RoomStays(Init(writers, max, isAsync), acts);
  }

  /** Three steps of one writer: a whole call of write_log. */
  function OneCall(t: Thread, l: Text): seq<Act> {
    [Writer(t, l), Writer(t, l), Writer(t, l)]
  }

  /** The first two of them: the line is formatted and full() has been asked. */
  function TwoSteps(t: Thread, l: Text): seq<Act> {
    [Writer(t, l), Writer(t, l)]
  }

  lemma AfterTwo(s: Log, t: Thread, l: Text)
    requires t in s.pc && s.pc[t].Outside? && s.isAsync && |s.queue| < s.max
    ensures Run(Step, s, TwoSteps(t, l)) == s.(pc := s.pc[t := WillPush(l)], formatted := s.formatted + [l])
  {
    var a := Writer(t, l);
    assert [a, a][1..] == [a] && [a][1..] == [];
    var s1 := Step(s, a);
    assert Run(Step, s, [a, a]) == Run(Step, s1, [a]) == Run(Step, Step(s1, a), []);
  }

  lemma AfterOne(s: Log, t: Thread, l: Text)
    ensures Run(Step, s, [Writer(t, l)]) == Step(s, Writer(t, l))
  {
    assert [Writer(t, l)][1..] == [];
  }

  /** A writer alone can fill the queue up to any length below its bound. */
  lemma {:induction false} FillUp(s: Log, t: Thread, l: Text, n: nat) returns (acts: seq<Act>)
    requires t in s.pc && s.isAsync && (forall u :: u in s.pc ==> s.pc[u].Outside?) && |s.queue| + n <= s.max
    ensures var r := Run(Step, s, acts);
            && r.pc == s.pc && r.max == s.max && r.isAsync && |r.queue| == |s.queue| + n && r.lost == s.lost
    decreases n
  {
    if n == 0 {
      acts := [];
    } else {
      AfterTwo(s, t, l);
      var s2 := Run(Step, s, TwoSteps(t, l));
      AfterOne(s2, t, l);
      RunConcat(Step, s, TwoSteps(t, l), [Writer(t, l)]);
      var s3 := Run(Step, s, TwoSteps(t, l) + [Writer(t, l)]);
      assert s3.pc == s.pc;
      var more := FillUp(s3, t, l, n - 1);
      RunConcat(Step, s, TwoSteps(t, l) + [Writer(t, l)], more);
      acts := TwoSteps(t, l) + [Writer(t, l)] + more;
    }
  }

  /** Two writers that both see room for one line: the second push fails and its line is gone. */
  lemma TwoWritersLose(writers: set<Thread>, max: nat, t: Thread, u: Thread, l: Text) returns (acts: seq<Act>)
    requires t in writers && u in writers && t != u && max >= 1
    ensures Runs(writers, max, true, acts).lost == [l]
  {
    var s := Init(writers, max, true);
    var fill := FillUp(s, t, l, max - 1);
    var s0 := Run(Step, s, fill);
    AfterTwo(s0, t, l);
    var s1 := Run(Step, s0, TwoSteps(t, l));
    AfterTwo(s1, u, l);
    var s2 := Run(Step, s1, TwoSteps(u, l));
    AfterOne(s2, t, l);
    var s3 := Run(Step, s2, [Writer(t, l)]);
    AfterOne(s3, u, l);
    RunConcat(Step, s, fill, TwoSteps(t, l));
    RunConcat(Step, s, fill + TwoSteps(t, l), TwoSteps(u, l));
    RunConcat(Step, s, fill + TwoSteps(t, l) + TwoSteps(u, l), [Writer(t, l)]);
    RunConcat(Step, s, fill + TwoSteps(t, l) + TwoSteps(u, l) + [Writer(t, l)], [Writer(u, l)]);
    acts := fill + TwoSteps(t, l) + TwoSteps(u, l) + [Writer(t, l)] + [Writer(u, l)];
  }

  /** No line can be lost exactly when at most one thread writes to the log. */
  lemma NoLossIffOneWriter(writers: set<Thread>, max: nat)
    requires max >= 1
    ensures (forall acts :: Runs(writers, max, true, acts).lost == [])
       <==> (forall t, u :: t in writers && u in writers ==> t == u)
  {
    if forall t, u :: t in writers && u in writers ==> t == u {
      forall acts
        ensures Runs(writers, max, true, acts).lost == []
      {
        OneWriterKeepsRoom(writers, max, true, acts);
      }
    } else {
      var t, u :| t in writers && u in writers && t != u;
      var acts := TwoWritersLose(writers, max, t, u, Text([]));
    }
  }

  // ---- the code of write_log and of the consumer, among the other threads ----

  predicate Wrote(a: Act, t: Thread) {
    a.Writer? && a.t == t
  }

  /** Where `t` stood before each of its steps. */
  ghost function PathOf(t: Thread, s: Log, acts: seq<Act>): seq<Pc> {
    Path(Step, (a: Act) => Wrote(a, t), (x: Log) => if t in x.pc then x.pc[t] else Outside, s, acts)
  }

  /** What the consumer held before each of its steps. */
  ghost function HandPath(s: Log, acts: seq<Act>): seq<Option<Text>> {
    Path(Step, (a: Act) => a.Consumer?, (x: Log) => x.hand, s, acts)
  }

  lemma PathsOneMore(t: Thread, s: Log, acts: seq<Act>, a: Act)
    ensures var r := Run(Step, s, acts);
            && Run(Step, s, acts + [a]) == Step(r, a)
            && (Wrote(a, t) && t in r.pc ==> PathOf(t, s, acts + [a]) == PathOf(t, s, acts) + [r.pc[t]])
            && (a.Consumer? ==> HandPath(s, acts + [a]) == HandPath(s, acts) + [r.hand])
  {
    hide Step;
    OneMore(Step, (x: Act) => Wrote(x, t), (x: Log) => if t in x.pc then x.pc[t] else Outside, s, acts, a);
    OneMore(Step, (x: Act) => x.Consumer?, (x: Log) => x.hand, s, acts, a);
  }

  /** The histories only grow; the steps of the others do not move a writer, nor those of the writers the
      consumer's hand. */
  lemma {:induction false} OthersRun(t: Thread, s: Log, acts: seq<Act>)
    ensures var r := Run(Step, s, acts);
            && s.file <= r.file && s.enqueued <= r.enqueued && s.lost <= r.lost
            && r.max == s.max && r.isAsync == s.isAsync && r.pc.Keys == s.pc.Keys
            && (t in s.pc && (forall i :: 0 <= i < |acts| ==> !Wrote(acts[i], t)) ==> r.pc[t] == s.pc[t])
            && ((forall i :: 0 <= i < |acts| ==> !acts[i].Consumer?) ==> r.hand == s.hand && s.queue <= r.queue)
    decreases |acts|
  {
    if acts != [] {
      OneStep(t, s, acts[0]);
      hide Step;
      OthersRun(t, Step(s, acts[0]), acts[1..]);
    }
  }

  lemma OneStep(t: Thread, s: Log, a: Act)
    ensures var r := Step(s, a);
            && s.file <= r.file && s.enqueued <= r.enqueued && s.lost <= r.lost
            && r.max == s.max && r.isAsync == s.isAsync && r.pc.Keys == s.pc.Keys
            && (t in s.pc && !Wrote(a, t) ==> r.pc[t] == s.pc[t])
            && (!a.Consumer? ==> r.hand == s.hand && s.queue <= r.queue)
  {
  }

  lemma PathsAmongOthers(t: Thread, s: Log, acts: seq<Act>, more: seq<Act>)
    ensures Run(Step, s, acts + more) == Run(Step, Run(Step, s, acts), more)
    ensures (forall i :: 0 <= i < |more| ==> !Wrote(more[i], t)) ==> PathOf(t, s, acts + more) == PathOf(t, s, acts)
    ensures (forall i :: 0 <= i < |more| ==> !more[i].Consumer?) ==> HandPath(s, acts + more) == HandPath(s, acts)
  {
    hide Step;
    var r := Run(Step, s, acts);
    RunConcat(Step, s, acts, more);
    var (mine, at) := ((x: Act) => Wrote(x, t), (x: Log) => if t in x.pc then x.pc[t] else Outside);
    PathConcat(Step, mine, at, s, acts, more);
    if forall i :: 0 <= i < |more| ==> !Wrote(more[i], t) {
      NoPath(Step, mine, at, r, more);
    }
    PathConcat(Step, (x: Act) => x.Consumer?, (x: Log) => x.hand, s, acts, more);
    if forall i :: 0 <= i < |more| ==> !more[i].Consumer? {
      NoPath(Step, (x: Act) => x.Consumer?, (x: Log) => x.hand, r, more);
    }
  }

  /** Where write_log has put its line. */
  datatype Way = ToQueue | ToFile | Nowhere

  /** The log on the heap.  Its state is that of a run from the start, `acts`; between two statements of the
      code below the other threads take any steps they like. */
  class SharedLog {
    const max: nat
    const isAsync: bool
    ghost const writers: set<Thread>
    var queue: seq<Text>
    var file: seq<Entry>
    var pc: map<Thread, Pc>
    var hand: Option<Text>
    var formatted: seq<Text>
    var enqueued: seq<Text>
    var lost: seq<Text>
    ghost var acts: seq<Act>

    function View(): Log
      reads this
    {
      Log(queue, max, isAsync, pc, hand, file, formatted, enqueued, lost)
    }

    ghost predicate Valid()
      reads this
    {
      View() == Runs(writers, max, isAsync, acts)
    }

    /** Where `t` stood before each of its steps since the start. */
    ghost function Trail(t: Thread): seq<Pc>
      reads this
    {
      PathOf(t, Init(writers, max, isAsync), acts)
    }

    ghost function HandTrail(): seq<Option<Text>>
      reads this
    {
      HandPath(Init(writers, max, isAsync), acts)
    }

    constructor (writers: set<Thread>, max: nat, isAsync: bool)
      ensures Valid() && View() == Init(writers, max, isAsync)
    {
      this.writers, this.max, this.isAsync := writers, max, isAsync;
      queue, file, hand := [], [], None;
      pc := map t | t in writers :: Outside;
      formatted, enqueued, lost, acts := [], [], [], [];
    }

    /** Notes the step that was just taken on the fields. */
    ghost method Note(a: Act, before: Log)
      requires before == Runs(writers, max, isAsync, acts) && View() == Step(before, a)
      modifies this`acts
      ensures Valid()
      ensures a.Writer? && a.t in before.pc ==> Trail(a.t) == old(Trail(a.t)) + [before.pc[a.t]]
      ensures a.Consumer? ==> HandTrail() == old(HandTrail()) + [before.hand]
    {
      PathsOneMore(if a.Writer? then a.t else 0, Init(writers, max, isAsync), acts, a);
      acts := acts + [a];
    }

    /** The threads other than writer `me`, or than the consumer, run for as long and in whatever order they like. */
    method OthersGo(me: Option<Thread>)
      requires Valid() && (me.Some? ==> me.value in pc)
      modifies this
      ensures Valid() && old(file) <= file && old(enqueued) <= enqueued && old(lost) <= lost
      ensures me.Some? ==> me.value in pc && pc[me.value] == old(pc[me.value])
      ensures me.Some? ==> Trail(me.value) == old(Trail(me.value))
      ensures me.None? ==> hand == old(hand) && HandTrail() == old(HandTrail()) && old(queue) <= queue
    {
      hide Step, Run, PathOf, HandPath, Init;
      var more: seq<Act> := *;
      more := Others(more, (a: Act) => if me.Some? then Wrote(a, me.value) else a.Consumer?);
      var s := Run(Step, View(), more);
      OthersRun(if me.Some? then me.value else 0, View(), more);
      PathsAmongOthers(if me.Some? then me.value else 0, Init(writers, max, isAsync), acts, more);
      queue, file, pc, hand := s.queue, s.file, s.pc, s.hand;
      formatted, enqueued, lost := s.formatted, s.enqueued, s.lost;
      acts := acts + more;
    }

    /** Formatting the line. */
    method Format(t: Thread, line: Text)
      requires Valid() && t in pc && pc[t].Outside?
      modifies this
      ensures Valid() && t in pc && pc[t] == Formatted(line) && Trail(t) == old(Trail(t)) + [Outside]
      ensures file == old(file) && enqueued == old(enqueued) && lost == old(lost)
    {
      ghost var before := View();
      formatted, pc := formatted + [line], pc[t := Formatted(line)];
      Note(Writer(t, line), before);
    }

    /** The test that decides between the queue and the file. */
    method Decide(t: Thread, line: Text) returns (enqueue: bool)
      requires Valid() && t in pc && pc[t] == Formatted(line)
      modifies this
      ensures Valid() && t in pc && pc[t] == if enqueue then WillPush(line) else WillWrite(line)
      ensures Trail(t) == old(Trail(t)) + [Formatted(line)]
      ensures old(file) <= file && old(enqueued) <= enqueued && old(lost) <= lost
      ensures enqueue <==> isAsync && |queue| < max
    {
      OthersGo(Some(t));
      ghost var before := View();
      enqueue := isAsync && |queue| < max;
      pc := pc[t := if enqueue then WillPush(line) else WillWrite(line)];
      Note(Writer(t, line), before);
    }

    /** The push, whose result is ignored: it fails only when there is another writer. */
    method Enqueue(t: Thread, line: Text) returns (ok: bool)
      requires Valid() && t in pc && pc[t] == WillPush(line)
      modifies this
      ensures Valid() && t in pc && pc[t].Outside? && Trail(t) == old(Trail(t)) + [WillPush(line)]
      ensures ok ==> Added(old(enqueued), enqueued, line)
      ensures !ok ==> Added(old(lost), lost, line) && exists u :: u in writers && u != t
    {
      OthersGo(Some(t));
      ghost var before := View();
      if |queue| >= max {
        AddedOne(old(lost), lost, line, lost + [line]);
        if forall u :: u in writers ==> u == t {
          OneWriterKeepsRoom(writers, max, isAsync, acts);
          assert false;
        }
        lost, pc := lost + [line], pc[t := Outside];
        Note(Writer(t, line), before);
        return false;
      }
      AddedOne(old(enqueued), enqueued, line, enqueued + [line]);
      queue, enqueued, pc := queue + [line], enqueued + [line], pc[t := Outside];
      Note(Writer(t, line), before);
      return true;
    }

    /** The direct write. */
    method WriteDirect(t: Thread, line: Text)
      requires Valid() && t in pc && pc[t] == WillWrite(line)
      modifies this
      ensures Valid() && t in pc && pc[t].Outside? && Trail(t) == old(Trail(t)) + [WillWrite(line)]
      ensures Added(old(file), file, Direct(line))
    {
      OthersGo(Some(t));
      ghost var before := View();
      AddedOne(old(file), file, Direct(line), file + [Direct(line)]);
      file, pc := file + [Direct(line)], pc[t := Outside];
      Note(Writer(t, line), before);
    }

    /** write_log: formatting, then the queue or the file; a line ends nowhere only with another writer about. */
    method WriteLog(t: Thread, line: Text) returns (way: Way)
      requires Valid() && t in pc && pc[t].Outside?
      modifies this
      ensures Valid() && t in pc && pc[t].Outside?
      ensures match way
              case ToQueue => isAsync && Added(old(enqueued), enqueued, line)
              case ToFile => Added(old(file), file, Direct(line))
              case Nowhere => isAsync && Added(old(lost), lost, line) && exists u :: u in writers && u != t
      ensures Trail(t) == old(Trail(t)) +
                [Outside, Formatted(line), if way.ToFile? then WillWrite(line) else WillPush(line)]
    {
      hide Run, Runs, PathOf, HandPath, Step, Init;
      Format(t, line);
      var enqueue := Decide(t, line);
      if enqueue {
        ghost var (e, l) := (enqueued, lost);
        var ok := Enqueue(t, line);
        if ok {
          AddedLater(old(enqueued), e, enqueued, line);
          return ToQueue;
        }
        AddedLater(old(lost), l, lost, line);
        return Nowhere;
      }
      ghost var f := file;
      WriteDirect(t, line);
      AddedLater(old(file), f, file, Direct(line));
      return ToFile;
    }

    /** The consumer's pop, which waits while the queue is empty. */
    method Fetch() returns (line: Option<Text>)
      requires Valid() && hand.None?
      modifies this
      ensures Valid() && hand == line && old(file) <= file
      ensures HandTrail() == old(HandTrail()) + if line.Some? then [None] else []
      ensures line.None? ==> queue == []
      ensures old(queue) != [] ==> line == Some(old(queue)[0])
    {
      OthersGo(None);
      ghost var before := View();
      if |queue| == 0 {
        return None;
      }
      line := Some(queue[0]);
      queue, hand := queue[1..], line;
      Note(Consumer, before);
    }

    /** One round of the consumer: the oldest queued line goes to the file. */
    method Consume() returns (line: Option<Text>)
      requires Valid() && hand.None?
      modifies this
      ensures Valid() && hand.None? && (old(queue) != [] ==> line == Some(old(queue)[0]))
      ensures if line.Some? then Added(old(file), file, Queued(line.value)) else queue == []
      ensures HandTrail() == old(HandTrail()) + if line.Some? then [None, line] else []
    {
      line := Fetch();
      if line.Some? {
        OthersGo(None);
        ghost var before := View();
        AddedOne(old(file), file, Queued(line.value), file + [Queued(line.value)]);
        file, hand := file + [Queued(line.value)], None;
        Note(Consumer, before);
      }
    }
  }
}
