/**
 block_queue<T> as a monitor: push, pop, clear and full as interleaved atomic steps of any number of
 threads over the queue, its mutex and its condition variable.
 */
module BlockQueue {
  import opened CString
  import opened Interleaving

  type Thread = nat

  /** The calls a thread outside the monitor may make. */
  datatype Call<T> = Pushing(item: T) | Popping | Clearing | Asking

  /** Where a thread stands.  Calling waits for the mutex; Asleep is inside pthread_cond_wait, Woken has left
      it and waits for the mutex again; Leaving is about to unlock and to return `result`. */
  datatype Pc<T> =
    | Outside
    | Calling(call: Call<T>)
    | Inside(call: Call<T>)
    | ToBroadcast(result: bool)
    | Asleep
    | Woken
    | Leaving(result: bool)

  /** How an item left the queue. */
  datatype Removed<T> = Popped(item: T) | Dropped(item: T)

  datatype Monitor<T> = Monitor(queue: seq<T>, max: nat, holder: Option<Thread>, pc: map<Thread, Pc<T>>,
                                pushed: seq<T>, removed: seq<Removed<T>>)

  /** The next step of thread `t`: `call` is what a thread outside calls, `fails` whether the condition wait
      returns an error. */
  datatype Act<T> = Act(t: Thread, call: Call<T>, fails: bool)

  predicate InLock<T>(p: Pc<T>) {
    p.Inside? || p.ToBroadcast? || p.Leaving?
  }

  function Move<T>(s: Monitor<T>, t: Thread, p: Pc<T>): Monitor<T> {
    s.(pc := s.pc[t := p])
  }

  /** pthread_cond_broadcast: every sleeper leaves its wait. */
  function Wake<T>(pc: map<Thread, Pc<T>>): map<Thread, Pc<T>> {
    map t | t in pc :: if pc[t].Asleep? then Woken else pc[t]
  }

  /** What a thread does inside the monitor: one round of the loop in pop and clear. */
  function Guarded<T>(s: Monitor<T>, t: Thread, call: Call<T>, fails: bool): Monitor<T> {
    match call
    case Pushing(x) =>
      if |s.queue| >= s.max then Move(s, t, ToBroadcast(false))
      else Move(s, t, ToBroadcast(true)).(queue := s.queue + [x], pushed := s.pushed + [x])
    case Popping =>
      if |s.queue| == 0 then
        if fails then Move(s, t, Leaving(false)) else Move(s, t, Asleep).(holder := None)
      else Move(s, t, Leaving(true)).(queue := s.queue[1..], removed := s.removed + [Popped(s.queue[0])])
    case Clearing =>
      if |s.queue| == 0 then Move(s, t, Leaving(true))
      else s.(queue := s.queue[1..], removed := s.removed + [Dropped(s.queue[0])])
    case Asking => Move(s, t, Leaving(|s.queue| >= s.max))
  }

  function Step<T>(s: Monitor<T>, a: Act<T>): Monitor<T> {
    var t := a.t;
    if t !in s.pc then s else
    match s.pc[t]
    case Outside => Move(s, t, Calling(a.call))
    case Calling(c) => if s.holder.None? then Move(s, t, Inside(c)).(holder := Some(t)) else s
    case Inside(c) => Guarded(s, t, c, a.fails)
    case ToBroadcast(ok) => Move(s.(pc := Wake(s.pc)), t, Leaving(ok))
    case Asleep => Move(s, t, Woken)
    case Woken => if s.holder.None? then Move(s, t, Inside(Popping)).(holder := Some(t)) else s
    case Leaving(_) => Move(s, t, Outside).(holder := None)
  }

  ghost predicate LockInv<T>(s: Monitor<T>) {
    forall t :: t in s.pc && InLock(s.pc[t]) <==> s.holder == Some(t)
  }

  /** A thread sleeps beside a non-empty queue only until the pusher inside the monitor has broadcast. */
  ghost predicate WakeInv<T>(s: Monitor<T>) {
    s.queue != [] && (exists t :: t in s.pc && s.pc[t].Asleep?) ==>
      s.holder.Some? && s.holder.value in s.pc && s.pc[s.holder.value].ToBroadcast?
  }

  function Items<T>(r: seq<Removed<T>>): (items: seq<T>)
    ensures |items| == |r| && forall i :: 0 <= i < |r| ==> items[i] == r[i].item
  {
    seq(|r|, i requires 0 <= i < |r| => r[i].item)
  }

  ghost predicate QueueInv<T>(s: Monitor<T>) {
    |s.queue| <= s.max && s.pushed == Items(s.removed) + s.queue
  }

  ghost predicate Inv<T>(s: Monitor<T>) {
    LockInv(s) && WakeInv(s) && QueueInv(s)
  }

  lemma LockKeeps<T>(s: Monitor<T>, a: Act<T>)
    requires LockInv(s)
    ensures LockInv(Step(s, a))
  {
  }

  lemma WakeKeeps<T>(s: Monitor<T>, a: Act<T>)
    requires LockInv(s) && WakeInv(s)
    ensures WakeInv(Step(s, a))
  {
  }

  lemma QueueKeeps<T>(s: Monitor<T>, a: Act<T>)
    requires QueueInv(s)
    ensures QueueInv(Step(s, a))
  {
    if s.queue != [] {
      assert s.queue == [s.queue[0]] + s.queue[1..];
      assert Items(s.removed + [Popped(s.queue[0])]) == Items(s.removed) + [s.queue[0]];
      assert Items(s.removed + [Dropped(s.queue[0])]) == Items(s.removed) + [s.queue[0]];
    }
  }

  function Init<T>(threads: set<Thread>, max: nat): Monitor<T> {
    Monitor([], max, None, map t | t in threads :: Outside, [], [])
  }

  ghost function Runs<T>(threads: set<Thread>, max: nat, acts: seq<Act<T>>): Monitor<T> {
    Run(Step, Init(threads, max), acts)
  }

  lemma KeepsInv<T(!new)>(s: Monitor<T>, acts: seq<Act<T>>)
    requires Inv(s)
    ensures Inv(Run(Step, s, acts)) && Run(Step, s, acts).max == s.max
  {
    var inv := (x: Monitor<T>) => Inv(x) && x.max == s.max;
    forall x, a | inv(x)
      ensures inv(Step(x, a))
    {
      LockKeeps(x, a);
      WakeKeeps(x, a);
      QueueKeeps(x, a);
    }
    RunKeeps(Step, inv, s, acts);
  }

  lemma Reachable<T(!new)>(threads: set<Thread>, max: nat, acts: seq<Act<T>>)
    ensures Inv(Runs(threads, max, acts)) && Runs(threads, max, acts).max == max
  {
    KeepsInv(Init<T>(threads, max), acts);
  }

  /** In every interleaving of any number of threads: at most one is in the monitor, the queue stays within
      its bound, items leave in the order in which they came, and whenever the mutex is free a consumer
      still asleep means an empty queue. */
  lemma MonitorSafety<T(!new)>(threads: set<Thread>, max: nat, acts: seq<Act<T>>)
    ensures var s := Runs(threads, max, acts);
            && (forall t, u :: t in s.pc && u in s.pc && InLock(s.pc[t]) && InLock(s.pc[u]) ==> t == u)
            && |s.queue| <= max && s.pushed == Items(s.removed) + s.queue
            && (s.holder.None? && (exists t :: t in s.pc && s.pc[t].Asleep?) ==> s.queue == [])
  {
    Reachable(threads, max, acts);
  }

  lemma StepGrows<T>(s: Monitor<T>, a: Act<T>)
    ensures s.removed <= Step(s, a).removed && s.pushed <= Step(s, a).pushed
  {
  }

  /** Nothing is ever taken back from the two histories. */
  lemma {:induction false} RunGrows<T>(s: Monitor<T>, acts: seq<Act<T>>)
    ensures s.removed <= Run(Step, s, acts).removed && s.pushed <= Run(Step, s, acts).pushed
    decreases |acts|
  {
    if acts != [] {
      StepGrows(s, acts[0]);
      RunGrows(Step(s, acts[0]), acts[1..]);
    }
  }

  /** The items that pop delivered. */
  function Delivered<T>(r: seq<Removed<T>>): seq<T> {
    if r == [] then [] else (if r[0].Popped? then [r[0].item] else []) + Delivered(r[1..])
  }

  lemma {:induction false} AllDelivered<T>(r: seq<Removed<T>>)
    requires forall i :: 0 <= i < |r| ==> r[i].Popped?
    ensures Delivered(r) == Items(r)
  {
    if r != [] {
      AllDelivered(r[1..]);
      assert Items(r) == [r[0].item] + Items(r[1..]);
    }
  }

  /** After a state with an empty queue, as clear leaves it, and as long as nothing is dropped, what pop has
      delivered is a prefix of what push has taken in. */
  lemma DeliveredIsPrefix<T(!new)>(s: Monitor<T>, acts: seq<Act<T>>)
    requires Inv(s) && s.queue == []
    ensures var t := Run(Step, s, acts);
            && s.removed <= t.removed && s.pushed <= t.pushed
            && (var since := t.removed[|s.removed|..];
                (forall i :: 0 <= i < |since| ==> since[i].Popped?) ==> Delivered(since) <= t.pushed[|s.pushed|..])
  {
    KeepsInv(s, acts);
    RunGrows(s, acts);
    var t := Run(Step, s, acts);
    var since := t.removed[|s.removed|..];
    if forall i :: 0 <= i < |since| ==> since[i].Popped? {
      AllDelivered(since);
      assert Items(since) == Items(t.removed)[|s.removed|..];
    }
  }

  /** What the mutex guards: while a thread holds it, the others change neither the queue nor its histories. */
  lemma {:induction false} OthersLocked<T>(t: Thread, s: Monitor<T>, acts: seq<Act<T>>)
    requires LockInv(s) && s.holder == Some(t) && forall i :: 0 <= i < |acts| ==> acts[i].t != t
    ensures var r := Run(Step, s, acts);
            r.queue == s.queue && r.holder == s.holder && r.pushed == s.pushed && r.removed == s.removed
    decreases |acts|
  {
    if acts != [] {
      LockKeeps(s, acts[0]);
      OthersLocked(t, Step(s, acts[0]), acts[1..]);
    }
  }

  // ---- the code of push, pop, clear and full, among the other threads ----

  /** Where `t` stood before each of its steps. */
  ghost function PathOf<T>(t: Thread, s: Monitor<T>, acts: seq<Act<T>>): seq<Pc<T>> {
    Path(Step, (a: Act<T>) => a.t == t, (x: Monitor<T>) => if t in x.pc then x.pc[t] else Outside, s, acts)
  }

  lemma PathOneMore<T>(t: Thread, s: Monitor<T>, acts: seq<Act<T>>, a: Act<T>)
    ensures Run(Step, s, acts + [a]) == Step(Run(Step, s, acts), a)
    ensures a.t == t && t in Run(Step, s, acts).pc ==>
              PathOf(t, s, acts + [a]) == PathOf(t, s, acts) + [Run(Step, s, acts).pc[t]]
  {
    hide Step;
    OneMore(Step, (x: Act<T>) => x.t == t, (x: Monitor<T>) => if t in x.pc then x.pc[t] else Outside, s, acts, a);
  }

  /** The steps of other threads move `t` only by waking it. */
  lemma {:induction false} OthersRun<T>(t: Thread, s: Monitor<T>, acts: seq<Act<T>>)
    requires t in s.pc && forall i :: 0 <= i < |acts| ==> acts[i].t != t
    ensures var r := Run(Step, s, acts);
            t in r.pc && (r.pc[t] == s.pc[t] || (s.pc[t].Asleep? && r.pc[t].Woken?))
    decreases |acts|
  {
    if acts != [] {
      OthersRun(t, Step(s, acts[0]), acts[1..]);
    }
  }

  lemma PathAmongOthers<T>(t: Thread, s: Monitor<T>, acts: seq<Act<T>>, more: seq<Act<T>>)
    requires forall i :: 0 <= i < |more| ==> more[i].t != t
    ensures PathOf(t, s, acts + more) == PathOf(t, s, acts)
    ensures Run(Step, s, acts + more) == Run(Step, Run(Step, s, acts), more)
  {
    hide Step;
    var (mine, at) := ((x: Act<T>) => x.t == t, (x: Monitor<T>) => if t in x.pc then x.pc[t] else Outside);
    RunConcat(Step, s, acts, more);
    PathConcat(Step, mine, at, s, acts, more);
    NoPath(Step, mine, at, Run(Step, s, acts), more);
  }

  /** How pop ends; it does not end while it waits for the mutex or for an item. */
  datatype PopEnd<T> = StillWaiting | WaitFailed | Got(item: T)

  /** The points that the loop of pop passes again and again. */
  predicate InLoop<T>(p: Pc<T>) {
    p == Inside(Popping) || p.Asleep? || p.Woken?
  }

  /** The queue on the heap.  Its state is that of a run from the start, `acts`; between two statements of the
      code below the other threads take any steps they like. */
  class SharedQueue<T(!new)> {
    const max: nat
    ghost const threads: set<Thread>
    var queue: seq<T>
    var holder: Option<Thread>
    var pc: map<Thread, Pc<T>>
    var pushed: seq<T>
    var removed: seq<Removed<T>>
    ghost var acts: seq<Act<T>>

    function View(): Monitor<T>
      reads this
    {
      Monitor(queue, max, holder, pc, pushed, removed)
    }

    ghost predicate Valid()
      reads this
    {
      View() == Runs(threads, max, acts)
    }

    /** Where `t` stood before each of its steps since the start. */
    ghost function Trail(t: Thread): seq<Pc<T>>
      reads this
    {
      PathOf(t, Init(threads, max), acts)
    }

    constructor (threads: set<Thread>, max: nat)
      ensures Valid() && View() == Init(threads, max)
    {
      this.max, this.threads := max, threads;
      queue, holder, pc := [], None, map t | t in threads :: Outside;
      pushed, removed, acts := [], [], [];
    }

    /** Notes the step that was just taken on the fields. */
    ghost method Note(a: Act<T>, before: Monitor<T>)
      requires before == Runs(threads, max, acts) && a.t in before.pc && View() == Step(before, a)
      modifies this`acts
      ensures Valid() && acts == old(acts) + [a] && Trail(a.t) == old(Trail(a.t)) + [before.pc[a.t]]
    {
      PathOneMore(a.t, Init(threads, max), acts, a);
      acts := acts + [a];
    }

    /** The other threads run, for as long and in whatever order they like. */
    method OthersGo(t: Thread)
      requires Valid() && t in pc
      modifies this
      ensures Valid() && t in pc && Trail(t) == old(Trail(t)) && old(acts) <= acts
      ensures pc[t] == old(pc[t]) || (old(pc[t]).Asleep? && pc[t].Woken?)
      ensures old(holder) == Some(t) ==>
                queue == old(queue) && holder == Some(t) && pushed == old(pushed) && removed == old(removed)
      ensures old(pushed) <= pushed && old(removed) <= removed
    {
      var more: seq<Act<T>> := *;
      more := Others(more, (a: Act<T>) => a.t == t);
      var s := Run(Step, View(), more);
      hide Step, WakeInv, QueueInv;
      OthersRun(t, View(), more);
      RunGrows(View(), more);
      Reachable(threads, max, acts);
      KeepsInv(View(), more);
      if holder == Some(t) {
        OthersLocked(t, View(), more);
      }
      PathAmongOthers(t, Init(threads, max), acts, more);
      queue, holder, pc, pushed, removed := s.queue, s.holder, s.pc, s.pushed, s.removed;
      acts := acts + more;
    }

    /** A thread outside calls, and waits for the mutex: `got` unless the others never leave it free. */
    method Enter(t: Thread, call: Call<T>) returns (got: bool)
      requires Valid() && t in pc && pc[t].Outside?
      modifies this
      ensures Valid() && t in pc && pc[t] == if got then Inside(call) else Calling(call)
      ensures Trail(t) == old(Trail(t)) + if got then [Outside, Calling(call)] else [Outside]
      ensures if got then holder == Some(t) else holder.Some?
      ensures old(acts) <= acts && old(pushed) <= pushed && old(removed) <= removed
    {
      ghost var before := View();
      pc := pc[t := Calling(call)];
      Note(Act(t, call, false), before);
      OthersGo(t);
      before := View();
      if holder.Some? {
        return false;
      }
      holder, pc := Some(t), pc[t := Inside(call)];
      Note(Act(t, call, false), before);
      return true;
    }

    /** m_mutex.unlock() */
    method Leave(t: Thread)
      requires Valid() && t in pc && pc[t].Leaving?
      modifies this
      ensures Valid() && t in pc && pc[t].Outside? && Trail(t) == old(Trail(t)) + [old(pc[t])]
      ensures old(acts) <= acts && old(pushed) <= pushed && old(removed) <= removed
    {
      OthersGo(t);
      ghost var before := View();
      holder, pc := None, pc[t := Outside];
      Note(Act(t, Popping, false), before);
    }

    /** m_cond.broadcast() */
    method Broadcast(t: Thread)
      requires Valid() && t in pc && pc[t].ToBroadcast?
      modifies this
      ensures Valid() && t in pc && pc[t] == Leaving(old(pc[t]).result) && Trail(t) == old(Trail(t)) + [old(pc[t])]
      ensures forall u :: u in pc ==> !pc[u].Asleep?
      ensures old(acts) <= acts && old(pushed) <= pushed
    {
      OthersGo(t);
      ghost var before := View();
      pc := Wake(pc)[t := Leaving(pc[t].result)];
      Note(Act(t, Popping, false), before);
    }

    /** The guarded test and push. */
    method TestAndPush(t: Thread, item: T) returns (ok: bool)
      requires Valid() && t in pc && pc[t] == Inside(Pushing(item)) && holder == Some(t)
      modifies this
      ensures Valid() && t in pc && pc[t] == ToBroadcast(ok) && Trail(t) == old(Trail(t)) + [Inside(Pushing(item))]
      ensures ok <==> |old(queue)| < max
      ensures queue == if ok then old(queue) + [item] else old(queue)
      ensures pushed == if ok then old(pushed) + [item] else old(pushed)
      ensures old(acts) <= acts
    {
      OthersGo(t);
      ghost var before := View();
      ok := |queue| < max;
      if ok {
        queue, pushed := queue + [item], pushed + [item];
      }
      pc := pc[t := ToBroadcast(ok)];
      Note(Act(t, Popping, false), before);
    }

    /** push: None while it waits for the mutex; its answer is whether there was room at the moment `when`. */
    method Push(t: Thread, item: T) returns (ok: Option<bool>, ghost when: nat)
      requires Valid() && t in pc && pc[t].Outside?
      modifies this
      ensures Valid() && t in pc
      ensures match ok
              case None => pc[t] == Calling(Pushing(item)) && holder.Some? && Trail(t) == old(Trail(t)) + [Outside]
              case Some(b) =>
                && pc[t].Outside? && (b ==> Added(old(pushed), pushed, item))
                && |old(acts)| <= when <= |acts|
                && (var s := Runs(threads, max, acts[..when]);
                    s.holder == Some(t) && (b <==> |s.queue| < max))
                && Trail(t) == old(Trail(t)) + [Outside, Calling(Pushing(item)), Inside(Pushing(item)),
                                                ToBroadcast(b), Leaving(b)]
    {
      hide Run, Runs, PathOf, Step, Init;
      when := 0;
      var got := Enter(t, Pushing(item));
      if !got {
        return None, when;
      }
      ghost var (before, seen) := (pushed, acts);
      when := |acts|;
      var b := TestAndPush(t, item);
      Broadcast(t);
      Leave(t);
      if b {
        AddedOne(old(pushed), before, item, pushed);
      }
      assert acts[..when] == seen;
      return Some(b), when;
    }

    /** One round of the loop in pop: take the front, or give up the mutex and sleep, or fail to. */
    method TryPop(t: Thread) returns (end: PopEnd<T>)
      requires Valid() && t in pc && pc[t] == Inside(Popping) && holder == Some(t)
      modifies this
      ensures Valid() && t in pc && Trail(t) == old(Trail(t)) + [Inside(Popping)]
      ensures old(queue) != [] ==> end.Got? && [end.item] + queue == old(queue) && pc[t] == Leaving(true)
      ensures old(queue) == [] ==> end == if pc[t].Asleep? then StillWaiting else WaitFailed
      ensures end.WaitFailed? ==> pc[t] == Leaving(false)
      ensures removed == if end.Got? then old(removed) + [Popped(end.item)] else old(removed)
    {
      OthersGo(t);
      ghost var before := View();
      var fails: bool := *;
      if |queue| > 0 {
        end := Got(queue[0]);
        removed, pc := removed + [Popped(queue[0])], pc[t := Leaving(true)];
        queue := queue[1..];
      } else if fails {
        end := WaitFailed;
        pc := pc[t := Leaving(false)];
      } else {
        end := StillWaiting;
        pc, holder := pc[t := Asleep], None;
      }
      Note(Act(t, Popping, fails), before);
    }

    /** Thread `t` cannot go on: it sleeps, beside an empty queue or while another is in the monitor, or another
        has the mutex. */
    ghost predicate MustWait(t: Thread)
      reads this
    {
      t in pc && if pc[t].Asleep? then holder.Some? || queue == [] else pc[t].Woken? && holder.Some?
    }

    /** The rest of pthread_cond_wait: a broadcast or nothing at all wakes the thread, and it takes the mutex
        again; `woken` unless it sleeps on or the others never leave the mutex free. */
    method WakeUp(t: Thread) returns (woken: bool, ghost went: seq<Pc<T>>)
      requires Valid() && t in pc && pc[t].Asleep?
      modifies this
      ensures Valid() && t in pc && Trail(t) == old(Trail(t)) + went && forall i :: 0 <= i < |went| ==> InLoop(went[i])
      ensures woken ==> pc[t] == Inside(Popping) && holder == Some(t) && |went| >= 1
      ensures !woken ==> MustWait(t)
      ensures old(removed) <= removed
    {
      hide Guarded, Wake, Run, Runs, PathOf, Init;
      OthersGo(t);
      went := [];
      var spurious: bool := *;
      if pc[t].Asleep? && spurious {
        ghost var before := View();
        pc := pc[t := Woken];
        Note(Act(t, Popping, false), before);
        went := [Asleep];
      }
      if pc[t].Asleep? {
        Reachable(threads, max, acts);
        return false, went;
      }
      OthersGo(t);
      ghost var before := View();
      if holder.Some? {
        return false, went;
      }
      holder, pc := Some(t), pc[t := Inside(Popping)];
      Note(Act(t, Popping, false), before);
      return true, went + [Woken];
    }

    /** pop, followed through at most `wakeups` rounds of sleep. */
    method Pop(t: Thread, wakeups: nat) returns (end: PopEnd<T>, ghost loop: seq<Pc<T>>)
      requires Valid() && t in pc && pc[t].Outside?
      modifies this
      ensures Valid() && t in pc && forall i :: 0 <= i < |loop| ==> InLoop(loop[i])
      ensures match end
              case StillWaiting =>
                || (pc[t] == Calling(Popping) && holder.Some? && Trail(t) == old(Trail(t)) + [Outside])
                || ((MustWait(t) || |loop| >= 2 * wakeups)
                    && InLoop(pc[t]) && Trail(t) == old(Trail(t)) + [Outside, Calling(Popping)] + loop)
              case WaitFailed =>
                pc[t].Outside? && Trail(t) == old(Trail(t)) + [Outside, Calling(Popping)] + loop + [Leaving(false)]
              case Got(item) =>
                && pc[t].Outside? && Added(old(removed), removed, Popped(item))
                && Trail(t) == old(Trail(t)) + [Outside, Calling(Popping)] + loop + [Leaving(true)]
    {
      hide Run, Runs, PathOf, Step, Init;
      loop := [];
      var got := Enter(t, Popping);
      if !got {
        return StillWaiting, loop;
      }
      ghost var start := Trail(t);
      for n := 0 to wakeups
        invariant Valid() && t in pc && pc[t] == Inside(Popping) && holder == Some(t)
        invariant Trail(t) == start + loop && forall i :: 0 <= i < |loop| ==> InLoop(loop[i])
        invariant old(removed) <= removed && |loop| >= 2 * n
      {
        ghost var before := removed;
        end := TryPop(t);
        loop := loop + [Inside(Popping)];
        if !end.StillWaiting? {
          Leave(t);
          if end.Got? {
            AddedOne(old(removed), before, Popped(end.item), removed);
          }
          return end, loop;
        }
        var woken, went := WakeUp(t);
        loop := loop + went;
        if !woken {
          return StillWaiting, loop;
        }
      }
      return StillWaiting, loop;
    }

    /** clear: once it is done, there was a moment `empty` at which it held the mutex and the queue was empty. */
    method Clear(t: Thread) returns (done: bool, ghost empty: nat, ghost loop: seq<Pc<T>>)
      requires Valid() && t in pc && pc[t].Outside?
      modifies this
      ensures Valid() && t in pc && forall i :: 0 <= i < |loop| ==> loop[i] == Inside(Clearing)
      ensures !done ==> pc[t] == Calling(Clearing) && holder.Some?
      ensures done ==>
                && pc[t].Outside? && |old(acts)| <= empty <= |acts|
                && (var s := Runs(threads, max, acts[..empty]); s.queue == [] && s.holder == Some(t))
                && Trail(t) == old(Trail(t)) + [Outside, Calling(Clearing)] + loop + [Leaving(true)]
    {
      hide Run, PathOf, Init;
      empty, loop := 0, [];
      var got := Enter(t, Clearing);
      if !got {
        return false, empty, loop;
      }
      ghost var start := Trail(t);
      while |queue| > 0
        invariant Valid() && t in pc && pc[t] == Inside(Clearing) && holder == Some(t) && old(acts) <= acts
        invariant Trail(t) == start + loop && forall i :: 0 <= i < |loop| ==> loop[i] == Inside(Clearing)
        decreases |queue|
      {
        OthersGo(t);
        ghost var before := View();
        removed := removed + [Dropped(queue[0])];
        queue := queue[1..];
        Note(Act(t, Clearing, false), before);
        loop := loop + [Inside(Clearing)];
      }
      ghost var before := View();
      ghost var seen := acts;
      empty := |acts|;
      pc := pc[t := Leaving(true)];
      Note(Act(t, Clearing, false), before);
      loop := loop + [Inside(Clearing)];
      Leave(t);
      assert acts[..empty] == seen;
      return true, empty, loop;
    }

    /** full: what it says was true while it held the mutex. */
    method Full(t: Thread) returns (full: Option<bool>, ghost when: nat)
      requires Valid() && t in pc && pc[t].Outside?
      modifies this
      ensures Valid() && t in pc && (full.None? ==> pc[t] == Calling(Asking) && holder.Some?)
      ensures full.Some? ==>
                && pc[t].Outside? && |old(acts)| <= when <= |acts|
                && (full.value <==> |Runs(threads, max, acts[..when]).queue| >= max)
                && Trail(t) == old(Trail(t)) + [Outside, Calling(Asking), Inside(Asking), Leaving(full.value)]
    {
      when := 0;
      var got := Enter(t, Asking);
      if !got {
        return None, when;
      }
      OthersGo(t);
      ghost var before := View();
      ghost var seen := acts;
      when := |acts|;
      var answer := |queue| >= max;
      pc := pc[t := Leaving(answer)];
      Note(Act(t, Asking, false), before);
      Leave(t);
      assert acts[..when] == seen;
      return Some(answer), when;
    }
  }
}
