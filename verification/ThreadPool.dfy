/**
 threadpool<T>: append and run as interleaved atomic steps of any number of producer and worker threads
 over the request list, its mutex and its semaphore.
 */
module ThreadPool {
  import opened CString
  import opened Counting
  import opened Interleaving

  type Thread = nat

  /** Where a thread stands.  The first line is append, the second run; `r` is None for a null pointer. */
  datatype Pc<R> =
    | Outside | WantPush(r: Option<R>) | InPush(r: Option<R>) | Refused | Pushed | MustPost
    | AtWait | PastWait | InPop | FoundEmpty | Popped(r: Option<R>) | Working(job: R)

  /** The shared fields, where each thread stands, and what has happened: the requests accepted and taken,
      the jobs done, how often a wait failed and how often a worker found the list empty. */
  datatype Pool<R> = Pool(queue: seq<Option<R>>, sem: nat, holder: Option<Thread>, pc: map<Thread, Pc<R>>, max: nat,
                          accepted: seq<Option<R>>, taken: seq<Option<R>>, done: seq<R>, failed: nat, empties: nat)

  /** The next step of thread `t`; a thread outside calls append with the request `arg`, and at the wait
      `fails` says that a signal interrupts it, so that it returns without having taken a unit. */
  datatype Act<R> = Act(t: Thread, arg: Option<R>, fails: bool)

  predicate InLock<R>(p: Pc<R>) {
    p.InPush? || p.Refused? || p.Pushed? || p.InPop? || p.FoundEmpty? || p.Popped?
  }

  /** A worker past its wait that has not yet looked for its request. */
  predicate Owes<R>(p: Pc<R>) { p.PastWait? || p.InPop? }

  /** An appender whose request is in the list but whose post is still to come. */
  predicate Due<R>(p: Pc<R>) { p.Pushed? || p.MustPost? }

  predicate IsWorker<R>(p: Pc<R>) { p.AtWait? || Owes(p) || p.FoundEmpty? || p.Popped? || p.Working? }

  function Move<R>(s: Pool<R>, t: Thread, p: Pc<R>): Pool<R> {
    s.(pc := s.pc[t := p])
  }

  function Step<R>(s: Pool<R>, a: Act<R>): Pool<R> {
    var t := a.t;
    if t !in s.pc then s else
    match s.pc[t]
    case Outside => Move(s, t, WantPush(a.arg))
    case WantPush(r) => if s.holder.None? then Move(s, t, InPush(r)).(holder := Some(t)) else s
    case InPush(r) =>
      if |s.queue| > s.max then Move(s, t, Refused)
      else Move(s, t, Pushed).(queue := s.queue + [r], accepted := s.accepted + [r])
    case Refused => Move(s, t, Outside).(holder := None)
    case Pushed => Move(s, t, MustPost).(holder := None)
    case MustPost => Move(s, t, Outside).(sem := s.sem + 1)
    case AtWait =>
      if a.fails then Move(s, t, PastWait).(failed := s.failed + 1)
      else if s.sem > 0 then Move(s, t, PastWait).(sem := s.sem - 1)
      else s
    case PastWait => if s.holder.None? then Move(s, t, InPop).(holder := Some(t)) else s
    case InPop =>
      if |s.queue| == 0 then Move(s, t, FoundEmpty).(empties := s.empties + 1)
      else Move(s, t, Popped(s.queue[0])).(queue := s.queue[1..], taken := s.taken + [s.queue[0]])
    case FoundEmpty => Move(s, t, AtWait).(holder := None)
    case Popped(r) => Move(s, t, if r.None? then AtWait else Working(r.value)).(holder := None)
    case Working(job) => Move(s, t, AtWait).(done := s.done + [job])
  }

  lemma OneMoves<R>(s: Pool<R>, a: Act<R>)
    requires a.t in s.pc
    ensures var s' := Step(s, a); a.t in s'.pc && s'.pc == s.pc[a.t := s'.pc[a.t]] && s'.max == s.max
  {
    assert s.pc == s.pc[a.t := s.pc[a.t]];
    hide InLock, Owes, Due;
    match s.pc[a.t]
    case WantPush(_) =>
    case InPush(_) =>
    case AtWait =>
    case PastWait =>
    case InPop =>
    case _ =>
  }

  /** The mutex: its holder is the one thread inside a critical section. */
  ghost predicate LockInv<R>(s: Pool<R>) {
    forall t :: t in s.pc && InLock(s.pc[t]) <==> s.holder == Some(t)
  }

  /** The account of requests and units.  A request in the list is matched by a unit of the semaphore, by a
      worker past its wait, or by an appender that is about to post; a wait that failed is one worker more
      past its wait, and an empty list found is one worker less.  No more lists are found empty than waits
      failed. */
  ghost predicate Account<R>(s: Pool<R>) {
    && |s.queue| + s.failed == s.sem + Count(s.pc, Owes) + Count(s.pc, Due) + s.empties
    && s.empties <= s.failed
    && |s.queue| <= s.max + 1
    && s.accepted == s.taken + s.queue
    && (forall t :: t in s.pc && s.pc[t].FoundEmpty? ==> s.empties > 0)
  }

  ghost predicate Inv<R>(s: Pool<R>) {
    LockInv(s) && Account(s)
  }

  /** A step changes the holder only as far as the thread itself is concerned. */
  lemma HolderMoves<R>(s: Pool<R>, a: Act<R>)
    requires a.t in s.pc && (InLock(s.pc[a.t]) <==> s.holder == Some(a.t))
    ensures var s' := Step(s, a);
            && a.t in s'.pc && (InLock(s'.pc[a.t]) <==> s'.holder == Some(a.t))
            && forall u :: u != a.t ==> (s'.holder == Some(u) <==> s.holder == Some(u))
  {
  }

  lemma LockKeeps<R>(s: Pool<R>, a: Act<R>)
    requires LockInv(s)
    ensures LockInv(Step(s, a))
  {
    if a.t in s.pc {
      OneMoves(s, a);
      HolderMoves(s, a);
      hide Step, InLock;
    }
  }

  /** Every step of every thread keeps the account. */
  lemma AccountKeeps<R>(s: Pool<R>, a: Act<R>)
    requires Account(s)
    ensures Account(Step(s, a))
  {
    hide InLock;
    var t := a.t;
    if t in s.pc {
      var s' := Step(s, a);
      OneMoves(s, a);
      CountMove(s.pc, t, s'.pc[t], Owes);
      CountMove(s.pc, t, s'.pc[t], Due);
      hide Count;
      match s.pc[t]
      case InPop =>
        CountsOne(s.pc, t, Owes);
        assert s.queue != [] ==> s.queue == [s.queue[0]] + s.queue[1..];
      case InPush(_) =>
      case MustPost =>
      case AtWait =>
      case _ =>
    }
  }

  /** A thread that has taken the request for `job` and not yet finished it. */
  ghost function Has<R>(job: R): Pc<R> -> bool {
    (p: Pc<R>) => (p.Popped? && p.r == Some(job)) || (p.Working? && p.job == job)
  }

  /** A request that was taken is being served by one worker or has been served, as often as it was taken. */
  ghost predicate Served<R>(s: Pool<R>, job: R) {
    multiset(s.taken)[Some(job)] == multiset(s.done)[job] + Count(s.pc, Has(job))
  }

  lemma ServedKeeps<R>(s: Pool<R>, a: Act<R>, job: R)
    requires Served(s, job)
    ensures Served(Step(s, a), job)
  {
    hide InLock;
    var t := a.t;
    if t in s.pc {
      var s' := Step(s, a);
      OneMoves(s, a);
      CountMove(s.pc, t, s'.pc[t], Has(job));
      hide Count;
      match s.pc[t]
      case InPop =>
      case Popped(_) =>
      case Working(_) =>
      case _ =>
        assert s'.taken == s.taken && s'.done == s.done;
    }
  }

  /** Any number of producers outside and workers at their wait. */
  function Init<R>(producers: set<Thread>, workers: set<Thread>, max: nat): Pool<R> {
    Pool([], 0, None, map t | t in producers + workers :: if t in workers then AtWait else Outside, max,
         [], [], [], 0, 0)
  }

  ghost function Runs<R>(producers: set<Thread>, workers: set<Thread>, max: nat, acts: seq<Act<R>>): Pool<R> {
    Run(Step, Init(producers, workers, max), acts)
  }

  lemma Reachable<R(!new)>(producers: set<Thread>, workers: set<Thread>, max: nat, acts: seq<Act<R>>)
    ensures var s := Runs(producers, workers, max, acts); Inv(s) && s.max == max
  {
    var s := Init<R>(producers, workers, max);
    CountsNone(s.pc, Owes);
    CountsNone(s.pc, Due);
    var inv := (x: Pool<R>) => Inv(x) && x.max == max;
    forall x, a | inv(x)
      ensures inv(Step(x, a))
    {
      LockKeeps(x, a);
      AccountKeeps(x, a);
    }
    RunKeeps(Step, inv, s, acts);
  }

  /** In every interleaving of any number of threads, signals included: the account holds, accepted requests
      are taken once each and in order, the list never exceeds max + 1, a worker finds it empty no more often
      than a wait failed, and one thread at a time holds the mutex. */
  lemma PoolSafety<R(!new)>(producers: set<Thread>, workers: set<Thread>, max: nat, acts: seq<Act<R>>)
    ensures var s := Runs(producers, workers, max, acts);
            && s.accepted == s.taken + s.queue && |s.queue| <= max + 1
            && |s.queue| + s.failed == s.sem + Count(s.pc, Owes) + Count(s.pc, Due) + s.empties
            && s.empties <= s.failed
            && (forall t, u :: t in s.pc && u in s.pc && InLock(s.pc[t]) && InLock(s.pc[u]) ==> t == u)
  {
    Reachable(producers, workers, max, acts);
  }

  ghost predicate NoFailure<R>(acts: seq<Act<R>>) {
    forall i :: 0 <= i < |acts| ==> !acts[i].fails
  }

  lemma {:induction false} NoneFailed<R>(s: Pool<R>, acts: seq<Act<R>>)
    requires NoFailure(acts)
    ensures Run(Step, s, acts).failed == s.failed
    decreases |acts|
  {
    if acts != [] {
      NoneFailed(Step(s, acts[0]), acts[1..]);
    }
  }

  ghost predicate NoneAtEmpty<R>(s: Pool<R>) {
    forall t :: t in s.pc ==> !s.pc[t].FoundEmpty?
  }

  /** While no wait has failed, each request in the list has exactly one unit, worker or appender, and no
      worker is at the empty branch. */
  lemma ExactWithoutFailures<R(!new)>(producers: set<Thread>, workers: set<Thread>, max: nat, acts: seq<Act<R>>)
    requires NoFailure(acts)
    ensures var s := Runs(producers, workers, max, acts);
            |s.queue| == s.sem + Count(s.pc, Owes) + Count(s.pc, Due) && NoneAtEmpty(s)
  {
    Reachable(producers, workers, max, acts);
    NoneFailed(Init<R>(producers, workers, max), acts);
  }

  /** A signal at the wait, the lock, the test: the worker finds the list empty. */
  lemma InterruptedWait<R>(producers: set<Thread>, workers: set<Thread>, max: nat, t: Thread)
    returns (acts: seq<Act<R>>)
    requires t in workers
    ensures var s := Runs(producers, workers, max, acts); t in s.pc && s.pc[t].FoundEmpty?
  {
    var a: Act<R> := Act(t, None, true);
    acts := [a, a, a];
    var s := Init<R>(producers, workers, max);
    var s1 := Step(s, a);
    var s2 := Step(s1, a);
    assert acts[1..] == [a, a] && [a, a][1..] == [a] && [a][1..] == [];
    assert Run(Step, s, acts) == Run(Step, s1, [a, a]) == Run(Step, s2, [a]) == Run(Step, Step(s2, a), []);
  }

  /** The empty branch of run is dead code exactly when waits do not fail or there is no worker. */
  lemma EmptyIffWaitFails<R(!new)>(producers: set<Thread>, workers: set<Thread>, max: nat, mayFail: bool)
    ensures (forall acts: seq<Act<R>> :: mayFail || NoFailure(acts) ==>
               NoneAtEmpty(Runs(producers, workers, max, acts)))
       <==> !mayFail || workers == {}
  {
    if mayFail && workers != {} {
      var t :| t in workers;
      var acts := InterruptedWait<R>(producers, workers, max, t);
    } else {
      forall acts: seq<Act<R>> | mayFail || NoFailure(acts)
        ensures NoneAtEmpty(Runs(producers, workers, max, acts))
      {
        if mayFail {
          NoWorkers(producers, max, acts);
        } else {
          ExactWithoutFailures(producers, workers, max, acts);
        }
      }
    }
  }

  lemma NoWorkers<R(!new)>(producers: set<Thread>, max: nat, acts: seq<Act<R>>)
    ensures NoneAtEmpty(Runs(producers, {}, max, acts))
  {
    var inv := (x: Pool<R>) => forall t :: t in x.pc ==> !IsWorker(x.pc[t]);
    RunKeeps(Step, inv, Init<R>(producers, {}, max), acts);
  }

  /** No accepted job is lost or served twice: it is in the list, in a worker's hands, or done. */
  lemma JobsConserved<R(!new)>(producers: set<Thread>, workers: set<Thread>, max: nat, acts: seq<Act<R>>, job: R)
    ensures var s := Runs(producers, workers, max, acts);
            multiset(s.accepted)[Some(job)] ==
              multiset(s.queue)[Some(job)] + Count(s.pc, Has(job)) + multiset(s.done)[job]
  {
    var s := Init<R>(producers, workers, max);
    CountsNone(s.pc, Has(job));
    var inv := (x: Pool<R>) => Served(x, job);
    forall x, a | inv(x)
      ensures inv(Step(x, a))
    {
      ServedKeeps(x, a, job);
    }
    RunKeeps(Step, inv, s, acts);
    Reachable(producers, workers, max, acts);
  }

  // ---- progress ----

  /** Steps that change something, by threads that are inside a call or a round already, with no wait failing. */
  ghost predicate Moves<R>(s: Pool<R>, acts: seq<Act<R>>)
    decreases |acts|
  {
    acts == [] ||
    (var a := acts[0];
     a.t in s.pc && !s.pc[a.t].Outside? && !a.fails && Step(s, a) != s && Moves(Step(s, a), acts[1..]))
  }

  /** These steps take the request at the head of the list, and no other. */
  ghost predicate Takes<R>(s: Pool<R>, acts: seq<Act<R>>) {
    s.queue != [] && Moves(s, acts) && Run(Step, s, acts).taken == s.taken + [s.queue[0]]
  }

  ghost function Go<R>(t: Thread): Act<R> {
    Act(t, None, false)
  }

  lemma FirstThen<R>(s: Pool<R>, t: Thread, rest: seq<Act<R>>)
    requires t in s.pc && !s.pc[t].Outside?
    requires var s' := Step(s, Go(t));
             s' != s && Takes(s', rest) && s.queue != [] && s'.queue[0] == s.queue[0] && s'.taken == s.taken
    ensures Takes(s, [Go(t)] + rest)
  {
    hide Step;
    var acts := [Go(t)] + rest;
    assert acts[0] == Go(t) && acts[1..] == rest;
  }

  /** A worker past its wait needs the mutex and the list. */
  lemma TakeNow<R>(s: Pool<R>, t: Thread) returns (acts: seq<Act<R>>)
    requires s.holder.None? && s.queue != [] && t in s.pc && s.pc[t].PastWait?
    ensures Takes(s, acts)
  {
    var s1 := Step(s, Go(t));
    var s2 := Step(s1, Go(t));
    acts := [Go(t), Go(t)];
    assert s2.taken == s.taken + [s.queue[0]];
    assert acts[1..] == [Go(t)] && [Go<R>(t)][1..] == [];
    assert Run(Step, s, acts) == Run(Step, s1, [Go(t)]) == Run(Step, s2, []);
    assert Moves(s1, [Go(t)]);
  }

  /** With a unit left, a worker at its wait or at work gets there. */
  lemma TakeWithUnit<R>(s: Pool<R>, w: Thread) returns (acts: seq<Act<R>>)
    requires s.holder.None? && s.queue != [] && s.sem > 0
    requires w in s.pc && (s.pc[w].AtWait? || s.pc[w].Working?)
    ensures Takes(s, acts)
    decreases s.pc[w].Working?
  {
    var s1 := Step(s, Go(w));
    if s.pc[w].Working? {
      acts := TakeWithUnit(s1, w);
    } else {
      acts := TakeNow(s1, w);
    }
    FirstThen(s, w, acts);
    acts := [Go(w)] + acts;
  }

  /** With the mutex free, the unit is there, or a worker has it, or an appender is about to post it. */
  lemma TakeWithMutex<R>(s: Pool<R>, w: Thread) returns (acts: seq<Act<R>>)
    requires Inv(s) && s.holder.None? && s.queue != [] && w in s.pc && IsWorker(s.pc[w])
    ensures Takes(s, acts)
  {
    assert forall t :: t in s.pc ==> !InLock(s.pc[t]);
    if t :| t in s.pc && s.pc[t].PastWait? {
      acts := TakeNow(s, t);
    } else if s.sem > 0 {
      acts := TakeWithUnit(s, w);
    } else {
      CountsNone(s.pc, Owes);
      var t := SomeThread(s.pc, Due);
      hide Count;
      acts := TakeWithUnit(Step(s, Go(t)), w);
      FirstThen(s, t, acts);
      acts := [Go(t)] + acts;
    }
  }

  /** The holder of the mutex gives it back in at most two steps, or takes the request itself. */
  lemma TakeAfterHolder<R>(s: Pool<R>, w: Thread, h: Thread) returns (acts: seq<Act<R>>)
    requires Inv(s) && s.holder == Some(h) && s.queue != [] && w in s.pc && IsWorker(s.pc[w])
    ensures Takes(s, acts)
    decreases s.pc[h].InPush?
  {
    assert h in s.pc && InLock(s.pc[h]);
    var s1 := Step(s, Go(h));
    LockKeeps(s, Go(h));
    AccountKeeps(s, Go(h));
    hide Account, LockInv;
    if s.pc[h].InPop? {
      acts := [Go(h)];
      assert acts[1..] == [] && s1.taken == s.taken + [s.queue[0]];
      assert Run(Step, s, acts) == Run(Step, s1, []) == s1;
      assert Moves(s, acts);
    } else {
      if s.pc[h].InPush? {
        acts := TakeAfterHolder(s1, w, h);
      } else {
        acts := TakeWithMutex(s1, w);
      }
      FirstThen(s, h, acts);
      acts := [Go(h)] + acts;
    }
  }

  /** No deadlock and no stranded request: in every reachable state with a request in the list and any worker,
      the threads that are under way can get the first request taken by themselves, with no further append and
      no signal. */
  lemma WaitingWorkCanBeTaken<R>(s: Pool<R>, w: Thread) returns (acts: seq<Act<R>>)
    requires Inv(s) && s.queue != [] && w in s.pc && IsWorker(s.pc[w])
    ensures Moves(s, acts) && Run(Step, s, acts).taken == s.taken + [s.queue[0]]
  {
    if s.holder.None? {
      acts := TakeWithMutex(s, w);
    } else {
      acts := TakeAfterHolder(s, w, s.holder.value);
    }
  }

  // ---- the code of append and run, among the other threads ----

  /** Where `t` stood before each of its steps. */
  ghost function PathOf<R>(t: Thread, s: Pool<R>, acts: seq<Act<R>>): seq<Pc<R>> {
    Path(Step, (a: Act<R>) => a.t == t, (x: Pool<R>) => if t in x.pc then x.pc[t] else Outside, s, acts)
  }

  lemma PathOneMore<R>(t: Thread, s: Pool<R>, acts: seq<Act<R>>, a: Act<R>)
    ensures Run(Step, s, acts + [a]) == Step(Run(Step, s, acts), a)
    ensures a.t == t && t in Run(Step, s, acts).pc ==>
              PathOf(t, s, acts + [a]) == PathOf(t, s, acts) + [Run(Step, s, acts).pc[t]]
  {
    hide Step;
    OneMore(Step, (x: Act<R>) => x.t == t, (x: Pool<R>) => if t in x.pc then x.pc[t] else Outside, s, acts, a);
  }

  /** The steps of other threads do not move `t`, and the histories only grow. */
  lemma {:induction false} OthersRun<R>(t: Thread, s: Pool<R>, acts: seq<Act<R>>)
    requires t in s.pc && forall i :: 0 <= i < |acts| ==> acts[i].t != t
    ensures var r := Run(Step, s, acts);
            t in r.pc && r.pc[t] == s.pc[t] && s.max == r.max
            && s.accepted <= r.accepted && s.taken <= r.taken && s.failed <= r.failed
    decreases |acts|
  {
    if acts != [] {
      var s1 := Step(s, acts[0]);
      assert s.accepted <= s1.accepted && s.taken <= s1.taken && s.failed <= s1.failed;
      OthersRun(t, s1, acts[1..]);
    }
  }

  lemma PathAmongOthers<R>(t: Thread, s: Pool<R>, acts: seq<Act<R>>, more: seq<Act<R>>)
    requires forall i :: 0 <= i < |more| ==> more[i].t != t
    ensures PathOf(t, s, acts + more) == PathOf(t, s, acts)
    ensures Run(Step, s, acts + more) == Run(Step, Run(Step, s, acts), more)
  {
    hide Step;
    var (mine, at) := ((x: Act<R>) => x.t == t, (x: Pool<R>) => if t in x.pc then x.pc[t] else Outside);
    RunConcat(Step, s, acts, more);
    PathConcat(Step, mine, at, s, acts, more);
    NoPath(Step, mine, at, Run(Step, s, acts), more);
  }

  /** How a round of run ends. */
  datatype RoundEnd<R> = StillWaiting | FoundNothing | NullRequest | Ran(job: R)

  /** The pool on the heap.  Its state is that of a run from the start, `acts`; between two statements of the
      code below the other threads take any steps they like. */
  class SharedPool<R(!new)> {
    const max: nat
    ghost const producers: set<Thread>
    ghost const workers: set<Thread>
    var queue: seq<Option<R>>
    var sem: nat
    var holder: Option<Thread>
    var pc: map<Thread, Pc<R>>
    var accepted: seq<Option<R>>
    var taken: seq<Option<R>>
    var done: seq<R>
    var failed: nat
    var empties: nat
    ghost var acts: seq<Act<R>>

    function View(): Pool<R>
      reads this
    {
      Pool(queue, sem, holder, pc, max, accepted, taken, done, failed, empties)
    }

    ghost predicate Valid()
      reads this
    {
      View() == Runs(producers, workers, max, acts)
    }

    /** Where `t` stood before each of its steps since the start. */
    ghost function Trail(t: Thread): seq<Pc<R>>
      reads this
    {
      PathOf(t, Init(producers, workers, max), acts)
    }

    constructor (producers: set<Thread>, workers: set<Thread>, max: nat)
      ensures Valid() && View() == Init(producers, workers, max)
    {
      this.max, this.producers, this.workers := max, producers, workers;
      queue, sem, holder := [], 0, None;
      pc := map t | t in producers + workers :: if t in workers then AtWait else Outside;
      accepted, taken, done, failed, empties := [], [], [], 0, 0;
      acts := [];
    }

    /** Notes the step that was just taken on the fields. */
    ghost method Note(a: Act<R>, before: Pool<R>)
      requires before == Runs(producers, workers, max, acts) && a.t in before.pc && View() == Step(before, a)
      modifies this`acts
      ensures Valid() && acts == old(acts) + [a] && Trail(a.t) == old(Trail(a.t)) + [before.pc[a.t]]
    {
      PathOneMore(a.t, Init(producers, workers, max), acts, a);
      acts := acts + [a];
    }

    /** The other threads run, for as long and in whatever order they like. */
    method OthersGo(t: Thread)
      requires Valid() && t in pc
      modifies this
      ensures Valid() && t in pc && pc[t] == old(pc[t]) && Trail(t) == old(Trail(t))
      ensures old(acts) <= acts && old(accepted) <= accepted && old(taken) <= taken && old(failed) <= failed
    {
      var more: seq<Act<R>> := *;
      more := Others(more, (a: Act<R>) => a.t == t);
      var s := Run(Step, View(), more);
      OthersRun(t, View(), more);
      PathAmongOthers(t, Init(producers, workers, max), acts, more);
      queue, sem, holder, pc, accepted, taken := s.queue, s.sem, s.holder, s.pc, s.accepted, s.taken;
      done, failed, empties := s.done, s.failed, s.empties;
      acts := acts + more;
    }

    /** A thread outside calls append. */
    method Call(t: Thread, request: Option<R>)
      requires Valid() && t in pc && pc[t].Outside?
      modifies this
      ensures Valid() && t in pc && pc[t] == WantPush(request)
      ensures Trail(t) == old(Trail(t)) + [Outside] && accepted == old(accepted) && old(acts) <= acts
    {
      ghost var before := View();
      pc := pc[t := WantPush(request)];
      Note(Act(t, request, false), before);
    }

    /** m_queuelocker.lock(): `got` unless the others never leave the mutex free. */
    method Lock(t: Thread, inside: Pc<R>) returns (got: bool)
      requires Valid() && t in pc
      requires (pc[t].WantPush? && inside == InPush(pc[t].r)) || (pc[t].PastWait? && inside == InPop)
      modifies this
      ensures Valid() && t in pc && pc[t] == if got then inside else old(pc[t])
      ensures (got <==> holder == Some(t)) && (!got ==> holder.Some?)
      ensures Trail(t) == old(Trail(t)) + if got then [old(pc[t])] else []
      ensures old(acts) <= acts && old(accepted) <= accepted && old(taken) <= taken
    {
      OthersGo(t);
      ghost var before := View();
      Reachable(producers, workers, max, acts);
      hide Account, Run;
      if holder.Some? {
        return false;
      }
      holder, pc := Some(t), pc[t := inside];
      Note(Go(t), before);
      return true;
    }

    /** m_queuelocker.unlock(), from any of the places that hold the mutex. */
    method Unlock(t: Thread, outside: Pc<R>)
      requires Valid() && t in pc
      requires match pc[t]
               case Pushed => outside == MustPost
               case Refused => outside == Outside
               case FoundEmpty => outside == AtWait
               case Popped(r) => outside == if r.None? then AtWait else Working(r.value)
               case _ => false
      modifies this
      ensures Valid() && t in pc && pc[t] == outside && Trail(t) == old(Trail(t)) + [old(pc[t])]
      ensures old(acts) <= acts && old(accepted) <= accepted && old(taken) <= taken && old(failed) <= failed
    {
      OthersGo(t);
      ghost var before := View();
      holder, pc := None, pc[t := outside];
      Note(Go(t), before);
    }

    /** m_queuestat.wait(): takes a unit, or fails and is not looked at; `through` unless it waits on. */
    method Wait(t: Thread) returns (through: bool)
      requires Valid() && t in pc && pc[t].AtWait?
      modifies this
      ensures Valid() && t in pc && pc[t] == if through then PastWait else AtWait
      ensures Trail(t) == old(Trail(t)) + if through then [AtWait] else []
      ensures old(taken) <= taken && (!through ==> sem == 0)
    {
      OthersGo(t);
      ghost var before := View();
      var fails: bool := *;
      if fails {
        failed := failed + 1;
      } else if sem > 0 {
        sem := sem - 1;
      } else {
        return false;
      }
      pc := pc[t := PastWait];
      Note(Act(t, None, fails), before);
      return true;
    }

    /** After the first `when` steps `t` held the mutex, and the list had room or not. */
    ghost predicate Holding(t: Thread, when: nat, room: bool)
      requires when <= |acts|
      reads this
    {
      var s := Runs(producers, workers, max, acts[..when]);
      s.holder == Some(t) && (room <==> |s.queue| <= max)
    }

    /** The guarded statements of append. */
    method TestAndPush(t: Thread, request: Option<R>) returns (ok: bool, ghost when: nat)
      requires Valid() && t in pc && pc[t] == InPush(request)
      modifies this
      ensures Valid() && t in pc && pc[t] == if ok then Pushed else Refused
      ensures Trail(t) == old(Trail(t)) + [InPush(request)] && old(acts) <= acts && old(accepted) <= accepted
      ensures ok ==> |queue| <= max + 1 && Added(old(accepted), accepted, request)
      ensures |old(acts)| <= when <= |acts| && Holding(t, when, ok)
    {
      hide Run, Runs, PathOf, Init, Account;
      OthersGo(t);
      ghost var (before, seen) := (View(), acts);
      Reachable(producers, workers, max, acts);
      when := |acts|;
      ok := |queue| <= max;
      if ok {
        AddedOne(old(accepted), accepted, request, accepted + [request]);
        queue := queue + [request];
        accepted, pc := accepted + [request], pc[t := Pushed];
      } else {
        pc := pc[t := Refused];
      }
      Note(Go(t), before);
      assert acts[..when] == seen;
    }

    /** m_queuestat.post() */
    method Post(t: Thread)
      requires Valid() && t in pc && pc[t].MustPost?
      modifies this
      ensures Valid() && t in pc && pc[t].Outside? && Trail(t) == old(Trail(t)) + [MustPost] && sem > 0
      ensures old(acts) <= acts && old(accepted) <= accepted
    {
      OthersGo(t);
      ghost var before := View();
      sem, pc := sem + 1, pc[t := Outside];
      Note(Go(t), before);
    }

    /** append: None while it waits for the mutex; its answer is whether there was room at the moment `when`. */
    method Append(t: Thread, request: Option<R>) returns (ok: Option<bool>, ghost when: nat)
      requires Valid() && t in pc && pc[t].Outside?
      modifies this
      ensures Valid() && t in pc
      ensures ok.Some? ==> |old(acts)| <= when <= |acts| && Holding(t, when, ok.value)
      ensures match ok
              case None => pc[t] == WantPush(request) && holder.Some? && Trail(t) == old(Trail(t)) + [Outside]
              case Some(true) =>
                && pc[t].Outside? && Added(old(accepted), accepted, request)
                && Trail(t) == old(Trail(t)) + [Outside, WantPush(request), InPush(request), Pushed, MustPost]
              case Some(false) =>
                && pc[t].Outside?
                && Trail(t) == old(Trail(t)) + [Outside, WantPush(request), InPush(request), Refused]
    {
      hide Run, Runs, PathOf, Account, LockInv, Step, Init;
      when := 0;
      Call(t, request);
      var locked := Lock(t, InPush(request));
      if !locked {
        return None, when;
      }
      var pushed;
      pushed, when := TestAndPush(t, request);
      ghost var seen := acts[..when];
      if pushed {
        Unlock(t, MustPost);
        Post(t);
      } else {
        Unlock(t, Outside);
      }
      assert acts[..when] == seen;
      return Some(pushed), when;
    }

    /** The guarded statements of run: `found` says that the list was not empty. */
    method TakeFront(t: Thread) returns (found: bool, request: Option<R>)
      requires Valid() && t in pc && pc[t].InPop?
      modifies this
      ensures Valid() && t in pc && pc[t] == if found then Popped(request) else FoundEmpty
      ensures Trail(t) == old(Trail(t)) + [InPop] && old(taken) <= taken
      ensures found ==> Added(old(taken), taken, request)
      ensures !found ==> failed > 0
    {
      OthersGo(t);
      ghost var before := View();
      if |queue| == 0 {
        empties, pc := empties + 1, pc[t := FoundEmpty];
        Note(Go(t), before);
        Reachable(producers, workers, max, acts);
        return false, None;
      }
      request := queue[0];
      AddedOne(old(taken), taken, request, taken + [request]);
      queue := queue[1..];
      taken, pc := taken + [request], pc[t := Popped(request)];
      Note(Go(t), before);
      return true, request;
    }

    /** request->process() */
    method Work(t: Thread, job: R)
      requires Valid() && t in pc && pc[t] == Working(job)
      modifies this
      ensures Valid() && t in pc && pc[t].AtWait? && Trail(t) == old(Trail(t)) + [Working(job)]
      ensures old(taken) <= taken && job in done
    {
      OthersGo(t);
      ghost var before := View();
      done, pc := done + [job], pc[t := AtWait];
      Note(Go(t), before);
    }

    /** One round of the loop of run. */
    method Round(t: Thread) returns (end: RoundEnd<R>)
      requires Valid() && t in pc && pc[t].AtWait?
      modifies this
      ensures Valid() && t in pc && (!end.StillWaiting? ==> pc[t].AtWait?)
      ensures match end
              case StillWaiting =>
                || (pc[t].AtWait? && sem == 0 && Trail(t) == old(Trail(t)))
                || (pc[t].PastWait? && holder.Some? && Trail(t) == old(Trail(t)) + [AtWait])
              case FoundNothing => failed > 0 && Trail(t) == old(Trail(t)) + [AtWait, PastWait, InPop, FoundEmpty]
              case NullRequest =>
                && Added(old(taken), taken, None)
                && Trail(t) == old(Trail(t)) + [AtWait, PastWait, InPop, Popped(None)]
              case Ran(job) =>
                && Added(old(taken), taken, Some(job)) && job in done
                && Trail(t) == old(Trail(t)) + [AtWait, PastWait, InPop, Popped(Some(job)), Working(job)]
    {
      hide Run, Runs, PathOf, Account, LockInv, Step, Init;
      var through := Wait(t);
      if !through {
        return StillWaiting;
      }
      var locked := Lock(t, InPop);
      if !locked {
        return StillWaiting;
      }
      var found, request := TakeFront(t);
      if !found {
        Unlock(t, AtWait);
        return FoundNothing;
      }
      Unlock(t, if request.None? then AtWait else Working(request.value));
      if request.None? {
        return NullRequest;
      }
      Work(t, request.value);
      return Ran(request.value);
    }
  }
}
