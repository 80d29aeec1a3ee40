/**
 connection_pool: GetConnection and ReleaseConnection, paired by connectionRAII, as interleaved atomic
 steps of any number of clients over the list of idle connections, its mutex and its semaphore.
 */
module ConnPool {
  import opened CString
  import opened Counting
  import opened Interleaving

  type Client = nat
  type Conn = nat

  /** Where a client stands between the construction and the destruction of its connectionRAII. */
  datatype Pc =
    | Outside | GotNull
    | AtWait | PastWait | InTake | FrontOfEmpty | Took(c: Conn) | Using(c: Conn)
    | WantGive(c: Conn) | InGive(c: Conn) | Gave | MustPost

  /** The shared fields, where each client stands, and how often a wait has failed. */
  datatype Pool = Pool(idle: seq<Conn>, reserve: nat, holder: Option<Client>, pc: map<Client, Pc>, failed: nat)

  /** The next step of client `t`; at the wait `fails` says that a signal interrupts it, so that it returns
      without having taken a unit. */
  datatype Act = Act(t: Client, fails: bool)

  predicate InLock(p: Pc) {
    p.InTake? || p.FrontOfEmpty? || p.Took? || p.InGive? || p.Gave?
  }

  /** A getter past its wait that has not yet looked for its connection. */
  predicate Owes(p: Pc) { p.PastWait? || p.InTake? }

  /** A releaser whose connection is back in the list but whose post is still to come. */
  predicate Due(p: Pc) { p.Gave? || p.MustPost? }

  /** front() of an empty list is undefined; the model stops the client there, inside the lock. */
  predicate Stuck(p: Pc) { p.FrontOfEmpty? }

  predicate HoldsOne(p: Pc) { p.Took? || p.Using? || p.WantGive? || p.InGive? }

  predicate Holds(p: Pc, c: Conn) {
    HoldsOne(p) && p.c == c
  }

  ghost function Holder(c: Conn): Pc -> bool {
    (p: Pc) => Holds(p, c)
  }

  function Move(s: Pool, t: Client, p: Pc): Pool {
    s.(pc := s.pc[t := p])
  }

  function Step(s: Pool, a: Act): Pool {
    var t := a.t;
    if t !in s.pc then s else
    match s.pc[t]
    case Outside => Move(s, t, if |s.idle| == 0 then GotNull else AtWait)
    case GotNull => Move(s, t, Outside)
    case AtWait =>
      if a.fails then Move(s, t, PastWait).(failed := s.failed + 1)
      else if s.reserve > 0 then Move(s, t, PastWait).(reserve := s.reserve - 1)
      else s
    case PastWait => if s.holder.None? then Move(s, t, InTake).(holder := Some(t)) else s
    case InTake =>
      if |s.idle| == 0 then Move(s, t, FrontOfEmpty)
      else Move(s, t, Took(s.idle[0])).(idle := s.idle[1..])
    case FrontOfEmpty => s
    case Took(c) => Move(s, t, Using(c)).(holder := None)
    case Using(c) => Move(s, t, WantGive(c))
    case WantGive(c) => if s.holder.None? then Move(s, t, InGive(c)).(holder := Some(t)) else s
    case InGive(c) => Move(s, t, Gave).(idle := s.idle + [c])
    case Gave => Move(s, t, MustPost).(holder := None)
    case MustPost => Move(s, t, Outside).(reserve := s.reserve + 1)
  }

  ghost predicate LockInv(s: Pool) {
    forall t :: t in s.pc && InLock(s.pc[t]) <==> s.holder == Some(t)
  }

  /** The account of connections and units.  An idle connection is matched by a unit of the semaphore, by a
      getter past its wait, or by a releaser that is about to post; a wait that failed is one getter more
      past its wait, and a client at front() of an empty list is one less.  There are no more of those than
      waits that failed. */
  ghost predicate Account(s: Pool) {
    && |s.idle| + s.failed == s.reserve + Count(s.pc, Owes) + Count(s.pc, Due) + Count(s.pc, Stuck)
    && Count(s.pc, Stuck) <= s.failed
  }

  ghost function Copies(idle: seq<Conn>, c: Conn): nat {
    multiset(idle)[c]
  }

  /** `c` is in one place: idle or with one client if it belongs to the pool, nowhere if it does not. */
  ghost predicate OnePlace(s: Pool, all: set<Conn>, c: Conn) {
    Copies(s.idle, c) + Count(s.pc, Holder(c)) == One(c in all)
  }

  lemma LockKeeps(s: Pool, a: Act)
    requires LockInv(s)
    ensures LockInv(Step(s, a))
  {
  }

  lemma OneMoves(s: Pool, a: Act)
    requires a.t in s.pc
    ensures var s' := Step(s, a); a.t in s'.pc && s'.pc == s.pc[a.t := s'.pc[a.t]]
  {
    var p := Step(s, a).pc[a.t];
    assert Step(s, a).pc == s.pc || Step(s, a).pc == s.pc[a.t := p];
  }

  /** Every step keeps the account. */
  lemma AccountKeeps(s: Pool, a: Act)
    requires Account(s)
    ensures Account(Step(s, a))
  {
    var t := a.t;
    if t in s.pc {
      var p' := Step(s, a).pc[t];
      OneMoves(s, a);
      CountMove(s.pc, t, p', Owes);
      CountMove(s.pc, t, p', Due);
      CountMove(s.pc, t, p', Stuck);
      hide Count;
    }
  }

  lemma CopiesChange(idle: seq<Conn>, x: Conn, c: Conn)
    ensures Copies(idle + [x], c) == Copies(idle, c) + One(x == c)
    ensures idle != [] ==> Copies(idle, c) == One(idle[0] == c) + Copies(idle[1..], c)
  {
    if idle != [] {
      assert idle == [idle[0]] + idle[1..];
    }
  }

  /** What a step does to the list it undoes in the hands of the client. */
  lemma ListMoves(s: Pool, a: Act, c: Conn)
    requires a.t in s.pc
    ensures var s' := Step(s, a);
            a.t in s'.pc &&
            Copies(s'.idle, c) + One(Holds(s'.pc[a.t], c)) == Copies(s.idle, c) + One(Holds(s.pc[a.t], c))
  {
    var p := s.pc[a.t];
    CopiesChange(s.idle, if p.InGive? then p.c else 0, c);
    hide Copies, InLock;
    if !p.InTake? && !p.InGive? {
      assert Step(s, a).idle == s.idle;
    }
  }

  lemma PlaceKeeps(s: Pool, all: set<Conn>, a: Act, c: Conn)
    requires OnePlace(s, all, c)
    ensures OnePlace(Step(s, a), all, c)
  {
    hide Step, Copies, Count;
    if a.t in s.pc {
      OneMoves(s, a);
      ListMoves(s, a, c);
      CountMove(s.pc, a.t, Step(s, a).pc[a.t], Holder(c));
    } else {
      Unknown(s, a);
    }
  }

  lemma Unknown(s: Pool, a: Act)
    requires a.t !in s.pc
    ensures Step(s, a) == s
  {
  }

  /** The pool after init: idle connections, as many units, any number of clients. */
  function Init(conns: seq<Conn>, clients: set<Client>): Pool {
    Pool(conns, |conns|, None, map t | t in clients :: Outside, 0)
  }

  ghost function Runs(conns: seq<Conn>, clients: set<Client>, acts: seq<Act>): Pool {
    Run(Step, Init(conns, clients), acts)
  }

  ghost predicate Distinct(conns: seq<Conn>) {
    forall i, j :: 0 <= i < j < |conns| ==> conns[i] != conns[j]
  }

  lemma {:induction false} OnceEach(conns: seq<Conn>, c: Conn)
    requires Distinct(conns)
    ensures Copies(conns, c) == One(c in conns)
  {
    if conns != [] {
      OnceEach(conns[1..], c);
      CopiesChange(conns, 0, c);
    }
  }

  lemma Reachable(conns: seq<Conn>, clients: set<Client>, acts: seq<Act>)
    ensures var s := Runs(conns, clients, acts); LockInv(s) && Account(s)
  {
    var s := Init(conns, clients);
    CountsNone(s.pc, Owes);
    CountsNone(s.pc, Due);
    CountsNone(s.pc, Stuck);
    var inv := (x: Pool) => LockInv(x) && Account(x);
    forall x, a | inv(x)
      ensures inv(Step(x, a))
    {
      LockKeeps(x, a);
      AccountKeeps(x, a);
    }
    RunKeeps(Step, inv, s, acts);
  }

  lemma PlacesReachable(conns: seq<Conn>, clients: set<Client>, acts: seq<Act>, c: Conn)
    requires Distinct(conns)
    ensures OnePlace(Runs(conns, clients, acts), (set x | x in conns), c)
  {
    var (s, all) := (Init(conns, clients), set x | x in conns);
    CountsNone(s.pc, Holder(c));
    OnceEach(conns, c);
    var inv := (x: Pool) => OnePlace(x, all, c);
    forall x, a | inv(x)
      ensures inv(Step(x, a))
    {
      PlaceKeeps(x, all, a, c);
    }
    RunKeeps(Step, inv, s, acts);
  }

  /** In every interleaving of any number of clients, signals included: each connection of the pool is idle or
      with exactly one client, none appears from elsewhere, the semaphore accounts for the list, and no more
      clients are at front() of an empty list than waits have failed. */
  lemma PoolConserves(conns: seq<Conn>, clients: set<Client>, acts: seq<Act>, c: Conn)
    requires Distinct(conns)
    ensures var s := Runs(conns, clients, acts);
            && Copies(s.idle, c) + Count(s.pc, Holder(c)) == One(c in conns)
            && |s.idle| + s.failed == s.reserve + Count(s.pc, Owes) + Count(s.pc, Due) + Count(s.pc, Stuck)
            && Count(s.pc, Stuck) <= s.failed
            && (forall t, u :: t in s.pc && u in s.pc && Holds(s.pc[t], c) && Holds(s.pc[u], c) ==> t == u)
            && (forall t :: t in s.pc && Holds(s.pc[t], c) ==> c !in s.idle && c in conns)
  {
    Reachable(conns, clients, acts);
    PlacesReachable(conns, clients, acts, c);
    var s := Runs(conns, clients, acts);
    hide Runs, Account, LockInv;
    forall t | t in s.pc && Holds(s.pc[t], c)
      ensures c !in s.idle && c in conns
      ensures forall u :: u in s.pc && Holds(s.pc[u], c) ==> t == u
    {
      CountsOne(s.pc, t, Holder(c));
      forall u | u in s.pc && Holds(s.pc[u], c) && t != u
        ensures false
      {
        CountsTwo(s.pc, t, u, Holder(c));
      }
    }
  }

  // ---- front() of an empty list ----

  ghost predicate NoneStuck(s: Pool) {
    forall t :: t in s.pc ==> !Stuck(s.pc[t])
  }

  ghost predicate NoFailure(acts: seq<Act>) {
    forall i :: 0 <= i < |acts| ==> !acts[i].fails
  }

  lemma {:induction false} NoneFailed(s: Pool, acts: seq<Act>)
    requires NoFailure(acts)
    ensures Run(Step, s, acts).failed == s.failed
    decreases |acts|
  {
    if acts != [] {
      NoneFailed(Step(s, acts[0]), acts[1..]);
    }
  }

  /** While no wait has failed, each idle connection has exactly one unit, getter or releaser, and no client is
      at front() of an empty list. */
  lemma ExactWithoutFailures(conns: seq<Conn>, clients: set<Client>, acts: seq<Act>)
    requires NoFailure(acts)
    ensures var s := Runs(conns, clients, acts);
            |s.idle| == s.reserve + Count(s.pc, Owes) + Count(s.pc, Due) && NoneStuck(s)
  {
    Reachable(conns, clients, acts);
    NoneFailed(Init(conns, clients), acts);
    var s := Runs(conns, clients, acts);
    if t :| t in s.pc && Stuck(s.pc[t]) {
      CountsOne(s.pc, t, Stuck);
    }
  }

  /** The clients' connections and the idle ones add up, and no client is stuck. */
  ghost predicate Enough(s: Pool, conns: nat, clients: set<Client>) {
    |s.idle| + Count(s.pc, HoldsOne) == conns && s.pc.Keys == clients && NoneStuck(s)
  }

  /** When there are as many connections as clients, a client that holds none finds one. */
  lemma EnoughKeeps(s: Pool, conns: nat, clients: set<Client>, a: Act)
    requires Enough(s, conns, clients) && |clients| <= conns
    ensures Enough(Step(s, a), conns, clients)
  {
    var t := a.t;
    if t in s.pc {
      var p' := Step(s, a).pc[t];
      OneMoves(s, a);
      CountMove(s.pc, t, p', HoldsOne);
      if s.pc[t].InTake? {
        CountsFew(s.pc, t, HoldsOne);
      }
      hide Count;
    }
  }

  lemma EnoughForAll(conns: seq<Conn>, clients: set<Client>, acts: seq<Act>)
    requires |clients| <= |conns|
    ensures NoneStuck(Runs(conns, clients, acts))
  {
    var s := Init(conns, clients);
    CountsNone(s.pc, HoldsOne);
    var inv := (x: Pool) => Enough(x, |conns|, clients);
    forall x, a | inv(x)
      ensures inv(Step(x, a))
    {
      EnoughKeeps(x, |conns|, clients, a);
    }
    RunKeeps(Step, inv, s, acts);
  }

  /** A pool without connections gives everyone null. */
  lemma NoConnections(clients: set<Client>, acts: seq<Act>)
    ensures NoneStuck(Runs([], clients, acts))
  {
    var inv := (x: Pool) => x.idle == [] && forall t :: t in x.pc ==> x.pc[t].Outside? || x.pc[t].GotNull?;
    RunKeeps(Step, inv, Init([], clients), acts);
  }

  /** A client alone gets a connection: test, wait, lock, take, unlock. */
  lemma GetOne(s: Pool, t: Client) returns (acts: seq<Act>)
    requires t in s.pc && s.pc[t].Outside? && s.holder.None? && s.idle != [] && s.reserve > 0
    ensures Run(Step, s, acts) == s.(idle := s.idle[1..], reserve := s.reserve - 1, pc := s.pc[t := Using(s.idle[0])])
  {
    var a := Act(t, false);
    var (s1, s2) := (s.(pc := s.pc[t := AtWait]), s.(reserve := s.reserve - 1, pc := s.pc[t := PastWait]));
    var s3 := s2.(holder := Some(t), pc := s.pc[t := InTake]);
    var s4 := s3.(idle := s.idle[1..], pc := s.pc[t := Took(s.idle[0])]);
    var s5 := s4.(holder := None, pc := s.pc[t := Using(s.idle[0])]);
    assert Step(s, a) == s1 && Step(s1, a) == s2 && Step(s2, a) == s3 && Step(s3, a) == s4 && Step(s4, a) == s5;
    hide Step;
    acts := [a, a, a, a, a];
    assert acts[1..] == [a, a, a, a] && acts[1..][1..] == [a, a, a] && acts[1..][1..][1..] == [a, a];
    assert [a, a][1..] == [a] && [a][1..] == [];
    assert Run(Step, s3, [a, a]) == Run(Step, s4, [a]) == Run(Step, s5, []);
    assert Run(Step, s, acts) == Run(Step, s1, acts[1..]) == Run(Step, s2, [a, a, a]) == Run(Step, s3, [a, a]);
  }

  /** Enough clients empty the list. */
  lemma {:induction false} Drain(s: Pool, free: set<Client>) returns (acts: seq<Act>)
    requires s.holder.None? && s.reserve == |s.idle| <= |free|
    requires forall t :: t in free ==> t in s.pc && s.pc[t].Outside?
    ensures var r := Run(Step, s, acts);
            && r.idle == [] && r.holder.None?
            && forall t :: t in s.pc && t !in free ==> t in r.pc && r.pc[t] == s.pc[t]
    decreases |s.idle|
  {
    if s.idle == [] {
      acts := [];
    } else {
      var t :| t in free;
      var first := GetOne(s, t);
      var more := Drain(Run(Step, s, first), free - {t});
      RunConcat(Step, s, first, more);
      acts := first + more;
    }
  }

  /** With more clients than connections one signal is enough: a client passes the size test, the others take
      everything, its wait is interrupted, and it calls front() on the empty list. */
  lemma InterruptedWait(conns: seq<Conn>, clients: set<Client>) returns (acts: seq<Act>)
    requires 0 < |conns| < |clients|
    ensures !NoneStuck(Runs(conns, clients, acts))
  {
    var s := Init(conns, clients);
    var z :| z in clients;
    var (go, fail) := (Act(z, false), Act(z, true));
    var s1 := Step(s, go);
    assert Run(Step, s, [go]) == Run(Step, s1, []) by { assert [go][1..] == []; }
    var drain := Drain(s1, clients - {z});
    RunConcat(Step, s, [go], drain);
    var s2 := Run(Step, s1, drain);
    RunConcat(Step, s, [go] + drain, [fail, go, go]);
    assert [fail, go, go][1..] == [go, go] && [go, go][1..] == [go] && [go][1..] == [];
    var s3 := Step(s2, fail);
    var s4 := Step(s3, go);
    assert Run(Step, s2, [fail, go, go]) == Run(Step, s3, [go, go]) == Run(Step, s4, [go]);
    assert Run(Step, s4, [go]) == Run(Step, Step(s4, go), []);
    assert Step(s4, go).pc[z].FrontOfEmpty?;
    acts := [go] + drain + [fail, go, go];
  }

  /** No run calls front() on an empty list exactly when waits do not fail, or there is a connection for every
      client, or there is no connection at all. */
  lemma EmptyIffWaitFails(conns: seq<Conn>, clients: set<Client>, mayFail: bool)
    ensures (forall acts :: mayFail || NoFailure(acts) ==> NoneStuck(Runs(conns, clients, acts)))
       <==> !mayFail || |clients| <= |conns| || conns == []
  {
    if mayFail && 0 < |conns| < |clients| {
      var acts := InterruptedWait(conns, clients);
    } else {
      forall acts | mayFail || NoFailure(acts)
        ensures NoneStuck(Runs(conns, clients, acts))
      {
        if !mayFail {
          ExactWithoutFailures(conns, clients, acts);
        } else if conns == [] {
          NoConnections(clients, acts);
        } else {
          EnoughForAll(conns, clients, acts);
        }
      }
    }
  }

  // ---- the code of GetConnection and ReleaseConnection, among the other clients ----

  /** Where `t` stood before each of its steps. */
  ghost function PathOf(t: Client, s: Pool, acts: seq<Act>): seq<Pc> {
    Path(Step, (a: Act) => a.t == t, (x: Pool) => if t in x.pc then x.pc[t] else Outside, s, acts)
  }

  lemma PathOneMore(t: Client, s: Pool, acts: seq<Act>, a: Act)
    ensures Run(Step, s, acts + [a]) == Step(Run(Step, s, acts), a)
    ensures a.t == t && t in Run(Step, s, acts).pc ==>
              PathOf(t, s, acts + [a]) == PathOf(t, s, acts) + [Run(Step, s, acts).pc[t]]
  {
    hide Step;
    OneMore(Step, (x: Act) => x.t == t, (x: Pool) => if t in x.pc then x.pc[t] else Outside, s, acts, a);
  }

  /** The steps of other clients do not move `t`. */
  lemma {:induction false} OthersRun(t: Client, s: Pool, acts: seq<Act>)
    requires t in s.pc && forall i :: 0 <= i < |acts| ==> acts[i].t != t
    ensures var r := Run(Step, s, acts); t in r.pc && r.pc[t] == s.pc[t]
    decreases |acts|
  {
    if acts != [] {
      OthersRun(t, Step(s, acts[0]), acts[1..]);
    }
  }

  lemma PathAmongOthers(t: Client, s: Pool, acts: seq<Act>, more: seq<Act>)
    requires forall i :: 0 <= i < |more| ==> more[i].t != t
    ensures PathOf(t, s, acts + more) == PathOf(t, s, acts)
    ensures Run(Step, s, acts + more) == Run(Step, Run(Step, s, acts), more)
  {
    hide Step;
    var (mine, at) := ((x: Act) => x.t == t, (x: Pool) => if t in x.pc then x.pc[t] else Outside);
    RunConcat(Step, s, acts, more);
    PathConcat(Step, mine, at, s, acts, more);
    NoPath(Step, mine, at, Run(Step, s, acts), more);
  }

  /** How GetConnection ends; it does not end when it waits on or calls front() on an empty list. */
  datatype GetEnd = StillWaiting | NoneIdle | AtEmptyFront | Got(con: Conn)

  /** The pool on the heap.  Its state is that of a run from the start, `acts`; between two statements of the
      code below the other clients take any steps they like. */
  class SharedPool {
    ghost const conns: seq<Conn>
    ghost const clients: set<Client>
    var idle: seq<Conn>
    var reserve: nat
    var holder: Option<Client>
    var pc: map<Client, Pc>
    var failed: nat
    ghost var acts: seq<Act>

    function View(): Pool
      reads this
    {
      Pool(idle, reserve, holder, pc, failed)
    }

    ghost predicate Valid()
      reads this
    {
      View() == Runs(conns, clients, acts) && Distinct(conns)
    }

    /** Where `t` stood before each of its steps since the start. */
    ghost function Trail(t: Client): seq<Pc>
      reads this
    {
      PathOf(t, Init(conns, clients), acts)
    }

    constructor (conns: seq<Conn>, clients: set<Client>)
      requires Distinct(conns)
      ensures Valid() && View() == Init(conns, clients)
    {
      this.conns, this.clients := conns, clients;
      idle, reserve, holder, failed := conns, |conns|, None, 0;
      pc := map t | t in clients :: Outside;
      acts := [];
    }

    /** Notes the step that was just taken on the fields. */
    ghost method Note(a: Act, before: Pool)
      requires before == Runs(conns, clients, acts) && a.t in before.pc && View() == Step(before, a) && Distinct(conns)
      modifies this`acts
      ensures Valid() && acts == old(acts) + [a] && Trail(a.t) == old(Trail(a.t)) + [before.pc[a.t]]
    {
      PathOneMore(a.t, Init(conns, clients), acts, a);
      acts := acts + [a];
    }

    /** The other clients run, for as long and in whatever order they like. */
    method OthersGo(t: Client)
      requires Valid() && t in pc
      modifies this
      ensures Valid() && t in pc && pc[t] == old(pc[t]) && Trail(t) == old(Trail(t)) && old(acts) <= acts
    {
      var more: seq<Act> := *;
      more := Others(more, (a: Act) => a.t == t);
      var s := Run(Step, View(), more);
      OthersRun(t, View(), more);
      PathAmongOthers(t, Init(conns, clients), acts, more);
      idle, reserve, holder, pc, failed := s.idle, s.reserve, s.holder, s.pc, s.failed;
      acts := acts + more;
    }

    /** lock.lock(): `got` unless the others never leave the mutex free. */
    method Lock(t: Client, inside: Pc) returns (got: bool)
      requires Valid() && t in pc
      requires (pc[t].PastWait? && inside == InTake) || (pc[t].WantGive? && inside == InGive(pc[t].c))
      modifies this
      ensures Valid() && t in pc && pc[t] == if got then inside else old(pc[t])
      ensures Trail(t) == old(Trail(t)) + if got then [old(pc[t])] else []
      ensures (!got ==> holder.Some?) && old(acts) <= acts
    {
      OthersGo(t);
      ghost var before := View();
      if holder.Some? {
        return false;
      }
      holder, pc := Some(t), pc[t := inside];
      Note(Act(t, false), before);
      return true;
    }

    /** lock.unlock() */
    method Unlock(t: Client, outside: Pc)
      requires Valid() && t in pc
      requires (pc[t].Took? && outside == Using(pc[t].c)) || (pc[t].Gave? && outside == MustPost)
      modifies this
      ensures Valid() && t in pc && pc[t] == outside && Trail(t) == old(Trail(t)) + [old(pc[t])]
      ensures old(acts) <= acts
    {
      OthersGo(t);
      ghost var before := View();
      holder, pc := None, pc[t := outside];
      Note(Act(t, false), before);
    }

    /** The size test at the head of GetConnection, outside the lock. */
    method TestSize(t: Client) returns (none: bool)
      requires Valid() && t in pc && pc[t].Outside?
      modifies this
      ensures Valid() && t in pc && pc[t] == if none then GotNull else AtWait
      ensures Trail(t) == old(Trail(t)) + [Outside]
      ensures (none <==> idle == []) && old(acts) <= acts
    {
      OthersGo(t);
      ghost var before := View();
      none := |idle| == 0;
      pc := pc[t := if none then GotNull else AtWait];
      Note(Act(t, false), before);
    }

    /** reserve.wait(): takes a unit, or fails and is not looked at; `through` unless it waits on. */
    method Wait(t: Client) returns (through: bool)
      requires Valid() && t in pc && pc[t].AtWait?
      modifies this
      ensures Valid() && t in pc && pc[t] == if through then PastWait else AtWait
      ensures Trail(t) == old(Trail(t)) + if through then [AtWait] else []
      ensures (!through ==> reserve == 0) && old(acts) <= acts
    {
      OthersGo(t);
      ghost var before := View();
      var fails: bool := *;
      if fails {
        failed := failed + 1;
      } else if reserve > 0 {
        reserve := reserve - 1;
      } else {
        return false;
      }
      pc := pc[t := PastWait];
      Note(Act(t, fails), before);
      return true;
    }

    /** After the first `when` steps `t` held the mutex, and `con` was at the front of the list. */
    ghost predicate AtFront(t: Client, when: nat, con: Conn)
      requires when <= |acts|
      reads this
    {
      var s := Runs(conns, clients, acts[..when]);
      s.holder == Some(t) && s.idle != [] && s.idle[0] == con
    }

    /** The guarded statements of GetConnection: `found` says that the list was not empty. */
    method TakeFront(t: Client) returns (found: bool, con: Conn, ghost when: nat)
      requires Valid() && t in pc && pc[t].InTake?
      modifies this
      ensures Valid() && t in pc && pc[t] == if found then Took(con) else FrontOfEmpty
      ensures Trail(t) == old(Trail(t)) + [InTake]
      ensures !found ==> failed > 0 && |conns| < |clients|
      ensures |old(acts)| <= when <= |acts| && (found ==> AtFront(t, when, con))
    {
      OthersGo(t);
      ghost var (before, seen) := (View(), acts);
      when := |acts|;
      Reachable(conns, clients, acts);
      if |idle| == 0 {
        pc := pc[t := FrontOfEmpty];
        Note(Act(t, false), before);
        Reachable(conns, clients, acts);
        CountsOne(pc, t, Stuck);
        if |clients| <= |conns| {
          EnoughForAll(conns, clients, acts);
        }
        return false, 0, when;
      }
      con := idle[0];
      idle := idle[1..];
      pc := pc[t := Took(con)];
      Note(Act(t, false), before);
      assert acts[..when] == seen;
      return true, con, when;
    }

    /** GetConnection: a connection it returns was at the front of the list at the moment `when`; it is one of the
        pool's, in nobody else's hands and not idle. */
    method GetConnection(t: Client) returns (end: GetEnd, ghost when: nat)
      requires Valid() && t in pc && pc[t].Outside?
      modifies this
      ensures Valid() && t in pc
      ensures match end
              case StillWaiting =>
                || (pc[t].AtWait? && reserve == 0 && Trail(t) == old(Trail(t)) + [Outside])
                || (pc[t].PastWait? && holder.Some? && Trail(t) == old(Trail(t)) + [Outside, AtWait])
              case NoneIdle => pc[t].GotNull? && idle == [] && Trail(t) == old(Trail(t)) + [Outside]
              case AtEmptyFront =>
                && pc[t].FrontOfEmpty? && failed > 0 && |conns| < |clients|
                && Trail(t) == old(Trail(t)) + [Outside, AtWait, PastWait, InTake]
              case Got(con) =>
                && pc[t] == Using(con) && con in conns && con !in idle
                && |old(acts)| <= when <= |acts| && AtFront(t, when, con)
                && (forall u :: u in pc && u != t ==> !Holds(pc[u], con))
                && Trail(t) == old(Trail(t)) + [Outside, AtWait, PastWait, InTake, Took(con)]
    {
      hide Run, Runs, PathOf, Step, Init, Distinct;
      var none := TestSize(t);
      when := 0;
      if none {
        return NoneIdle, when;
      }
      var through := Wait(t);
      if !through {
        return StillWaiting, when;
      }
      var locked := Lock(t, InTake);
      if !locked {
        return StillWaiting, when;
      }
      var found, con;
      found, con, when := TakeFront(t);
      if !found {
        return AtEmptyFront, when;
      }
      ghost var seen := acts[..when];
      Unlock(t, Using(con));
      assert acts[..when] == seen;
      PoolConserves(conns, clients, acts, con);
      return Got(con), when;
    }

    /** The guarded statement of ReleaseConnection. */
    method PutBack(t: Client, con: Conn)
      requires Valid() && t in pc && pc[t] == InGive(con)
      modifies this
      ensures Valid() && t in pc && pc[t].Gave? && Trail(t) == old(Trail(t)) + [InGive(con)]
      ensures idle != [] && idle[|idle| - 1] == con
    {
      OthersGo(t);
      ghost var before := View();
      idle, pc := idle + [con], pc[t := Gave];
      Note(Act(t, false), before);
    }

    /** reserve.post() */
    method Post(t: Client)
      requires Valid() && t in pc && pc[t].MustPost?
      modifies this
      ensures Valid() && t in pc && pc[t].Outside? && Trail(t) == old(Trail(t)) + [MustPost]
    {
      OthersGo(t);
      ghost var before := View();
      reserve, pc := reserve + 1, pc[t := Outside];
      Note(Act(t, false), before);
    }

    /** The call of ReleaseConnection by the destructor of connectionRAII. */
    method CallRelease(t: Client)
      requires Valid() && t in pc && (pc[t].Using? || pc[t].GotNull?)
      modifies this
      ensures Valid() && t in pc && pc[t] == if old(pc[t]).Using? then WantGive(old(pc[t]).c) else Outside
      ensures Trail(t) == old(Trail(t)) + [old(pc[t])]
    {
      OthersGo(t);
      ghost var before := View();
      pc := pc[t := if pc[t].Using? then WantGive(pc[t].c) else Outside];
      Note(Act(t, false), before);
    }

    /** ReleaseConnection: None while it waits for the mutex. */
    method ReleaseConnection(t: Client, con: Option<Conn>) returns (ok: Option<bool>)
      requires Valid() && t in pc && pc[t] == if con.Some? then Using(con.value) else GotNull
      modifies this
      ensures Valid() && t in pc
      ensures match ok
              case None =>
                && con.Some? && pc[t] == WantGive(con.value) && holder.Some?
                && Trail(t) == old(Trail(t)) + [Using(con.value)]
              case Some(false) => con.None? && pc[t].Outside? && Trail(t) == old(Trail(t)) + [GotNull]
              case Some(true) =>
                && con.Some? && pc[t].Outside?
                && Trail(t) == old(Trail(t)) +
                     [Using(con.value), WantGive(con.value), InGive(con.value), Gave, MustPost]
    {
      hide Run, Runs, PathOf, Step, Init, Distinct;
      CallRelease(t);
      if con.None? {
        return Some(false);
      }
      var locked := Lock(t, InGive(con.value));
      if !locked {
        return None;
      }
      PutBack(t, con.value);
      Unlock(t, MustPost);
      Post(t);
      return Some(true);
    }
  }
}
