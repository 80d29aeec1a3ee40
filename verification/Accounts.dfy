/**
 The login and registration branch of do_request on the table of users: any number of workers look names up, and
 register them under the lock, in any interleaving.  What the database answers is left open.
 */
module Accounts {
  import opened CString
  import opened Interleaving

  type Thread = nat

  datatype User = User(name: seq<char>, password: seq<char>)

  datatype Call = Login(user: User) | Register(user: User)

  /** Where a worker stands: outside the branch; past the test that did not find the name; with the lock; or after
      its query, whose result is `ok`, and its insert. */
  datatype Pc = Outside | NotFound(user: User) | Locked(user: User) | Queried(user: User, ok: bool)

  /** The page a call was answered with. */
  datatype Answer = Answer(call: Call, page: seq<char>)

  /** `users` is the table in memory, `rows` the table of the database; `tried` are the users whose query has run. */
  datatype Site = Site(users: map<seq<char>, seq<char>>, rows: seq<User>, holder: Option<Thread>,
                       pc: map<Thread, Pc>, tried: seq<User>, answers: seq<Answer>)

  /** The next step of thread `t`: `call` is what a thread outside is asked for, `ok` what its query returns. */
  datatype Act = Act(t: Thread, call: Call, ok: bool)

  /** The name is in the table, with this password. */
  predicate Accepts(users: map<seq<char>, seq<char>>, u: User) {
    u.name in users && users[u.name] == u.password
  }

  /** map::insert, which keeps what is there already. */
  function Insert(users: map<seq<char>, seq<char>>, u: User): map<seq<char>, seq<char>> {
    if u.name in users then users else users[u.name := u.password]
  }

  function Move(s: Site, t: Thread, p: Pc): Site {
    s.(pc := s.pc[t := p])
  }

  function Reply(s: Site, t: Thread, call: Call, page: seq<char>): Site {
    Move(s, t, Outside).(answers := s.answers + [Answer(call, page)])
  }

  function Step(s: Site, a: Act): Site {
    var t := a.t;
    if t !in s.pc then s else
    match s.pc[t]
    case Outside => (
      match a.call
      case Login(u) => Reply(s, t, a.call, if Accepts(s.users, u) then "/1.html" else "/logerror.html")
      case Register(u) => if u.name in s.users then Reply(s, t, a.call, "/regerror.html") else Move(s, t, NotFound(u)))
    case NotFound(u) => if s.holder.None? then Move(s, t, Locked(u)).(holder := Some(t)) else s
    case Locked(u) =>
      Move(s, t, Queried(u, a.ok)).(users := Insert(s.users, u), rows := if a.ok then s.rows + [u] else s.rows,
                                    tried := s.tried + [u])
    case Queried(u, ok) => Reply(s, t, Register(u), if ok then "/index.html" else "/regerror.html").(holder := None)
  }

  /** initmysql_result: the rows in order, a later one over an earlier one. */
  function Load(rows: seq<User>): map<seq<char>, seq<char>> {
    if rows == [] then map[]
    else Load(rows[..|rows| - 1])[rows[|rows| - 1].name := rows[|rows| - 1].password]
  }

  function Init(threads: set<Thread>, rows: seq<User>): Site {
    Site(Load(rows), rows, None, map t | t in threads :: Outside, [], [])
  }

  ghost function Runs(threads: set<Thread>, rows: seq<User>, acts: seq<Act>): Site {
    Run(Step, Init(threads, rows), acts)
  }

  predicate Named(rows: seq<User>, name: seq<char>) {
    exists i :: 0 <= i < |rows| && rows[i].name == name
  }

  lemma LoadOneMore(rows: seq<User>, u: User)
    ensures Load(rows + [u]) == Load(rows)[u.name := u.password]
  {
    assert (rows + [u])[..|rows|] == rows;
  }

  lemma {:induction false} LoadNames(rows: seq<User>, name: seq<char>)
    ensures name in Load(rows) <==> Named(rows, name)
  {
    if rows != [] {
      var (front, last) := (rows[..|rows| - 1], rows[|rows| - 1]);
      LoadNames(front, name);
      if Named(front, name) {
        var i :| 0 <= i < |front| && front[i].name == name;
        assert rows[i].name == name;
      }
      if i :| 0 <= i < |rows| && rows[i].name == name && last.name != name {
        assert front[i].name == name;
      }
      assert rows[|rows| - 1] == last;
    }
  }

  // ---- which passwords are accepted ----

  /** The first of these users with that name is `u`. */
  ghost predicate FirstOf(tried: seq<User>, u: User) {
    exists i :: 0 <= i < |tried| && tried[i] == u && forall j :: 0 <= j < i ==> tried[j].name != u.name
  }

  /** The password of a name: the one it had at the start, or else the one of the first query for it. */
  ghost predicate FirstWins(users: map<seq<char>, seq<char>>, start: map<seq<char>, seq<char>>, tried: seq<User>) {
    && (forall u: User :: Accepts(users, u) <==> Accepts(start, u) || (u.name !in start && FirstOf(tried, u)))
    && (forall name :: name in users <==> name in start || Named(tried, name))
  }

  lemma NamedMore(tried: seq<User>, v: User, name: seq<char>)
    ensures Named(tried + [v], name) <==> Named(tried, name) || name == v.name
  {
    var more := tried + [v];
    assert more[|tried|] == v;
    if i :| 0 <= i < |tried| && tried[i].name == name {
      assert more[i].name == name;
    }
  }

  lemma FirstMore(tried: seq<User>, v: User, u: User)
    ensures FirstOf(tried + [v], u) <==> FirstOf(tried, u) || (u == v && !Named(tried, u.name))
  {
    var more := tried + [v];
    if i :| 0 <= i < |tried| && tried[i] == u && forall j :: 0 <= j < i ==> tried[j].name != u.name {
      assert more[i] == u;
    }
    if u == v && !Named(tried, u.name) {
      assert more[|tried|] == u && forall j :: 0 <= j < |tried| ==> more[j].name == tried[j].name != u.name;
    }
    if i :| 0 <= i < |more| && more[i] == u && forall j :: 0 <= j < i ==> more[j].name != u.name {
      if i < |tried| {
        assert tried[i] == u && forall j :: 0 <= j < i ==> more[j] == tried[j];
      } else {
        assert forall j :: 0 <= j < |tried| ==> more[j] == tried[j];
      }
    }
  }

  lemma FirstIsNamed(tried: seq<User>, u: User)
    ensures FirstOf(tried, u) ==> Named(tried, u.name)
  {
  }

  lemma InsertKeeps(users: map<seq<char>, seq<char>>, start: map<seq<char>, seq<char>>, tried: seq<User>, v: User)
    requires FirstWins(users, start, tried)
    ensures FirstWins(Insert(users, v), start, tried + [v])
  {
    hide FirstOf, Named;
    var (after, more) := (Insert(users, v), tried + [v]);
    forall name
      ensures name in after <==> name in start || Named(more, name)
    {
      NamedMore(tried, v, name);
    }
    forall u: User
      ensures Accepts(after, u) <==> Accepts(start, u) || (u.name !in start && FirstOf(more, u))
    {
      FirstMore(tried, v, u);
      FirstIsNamed(tried, u);
    }
  }

  lemma StepTable(s: Site, a: Act, start: map<seq<char>, seq<char>>)
    requires FirstWins(s.users, start, s.tried)
    ensures FirstWins(Step(s, a).users, start, Step(s, a).tried)
  {
    hide FirstWins, Insert;
    if a.t in s.pc && s.pc[a.t].Locked? {
      InsertKeeps(s.users, start, s.tried, s.pc[a.t].user);
    }
  }

  /** In every interleaving a login is accepted for the password that the name had at the start, or else for the one
      that the first query for it carried, whatever the database answered to it. */
  lemma TableIsFirst(threads: set<Thread>, rows: seq<User>, acts: seq<Act>)
    ensures var s := Runs(threads, rows, acts); FirstWins(s.users, Load(rows), s.tried)
  {
    var start := Load(rows);
    var inv := (x: Site) => FirstWins(x.users, start, x.tried);
    forall x, a | inv(x)
      ensures inv(Step(x, a))
    {
      StepTable(x, a, start);
    }
    RunKeeps(Step, inv, Init(threads, rows), acts);
  }

  // ---- what an answer promises ----

  /** The database refuses a name if and only if it has it. */
  ghost predicate Duly(s: Site, a: Act) {
    a.t in s.pc && s.pc[a.t].Locked? ==> (a.ok <==> !Named(s.rows, s.pc[a.t].user.name))
  }

  ghost predicate DulyRun(s: Site, acts: seq<Act>)
    decreases |acts|
  {
    acts == [] || (Duly(s, acts[0]) && DulyRun(Step(s, acts[0]), acts[1..]))
  }

  /** Who was told that the registration succeeded, or will be, can log in. */
  ghost predicate Promise(s: Site) {
    && (forall i :: 0 <= i < |s.answers| && s.answers[i].call.Register? && s.answers[i].page == "/index.html" ==>
          Accepts(s.users, s.answers[i].call.user))
    && (forall t :: t in s.pc && s.pc[t].Queried? && s.pc[t].ok ==> Accepts(s.users, s.pc[t].user))
  }

  /** Loading the table again would give the same. */
  ghost predicate Durable(s: Site) {
    Load(s.rows) == s.users
  }

  /** The registration of a name that is not in the table when its query runs. */
  ghost predicate NewName(s: Site, a: Act) {
    a.t in s.pc && s.pc[a.t].Locked? && a.ok ==> s.pc[a.t].user.name !in s.users
  }

  lemma PromiseKeeps(s: Site, a: Act)
    requires Promise(s) && NewName(s, a)
    ensures Promise(Step(s, a))
  {
  }

  lemma DurableKeeps(s: Site, a: Act)
    requires Durable(s) && Duly(s, a)
    ensures Durable(Step(s, a)) && NewName(s, a)
  {
    if a.t in s.pc && s.pc[a.t].Locked? {
      var u := s.pc[a.t].user;
      LoadNames(s.rows, u.name);
      LoadOneMore(s.rows, u);
    }
  }

  lemma {:induction false} ExactRun(s: Site, acts: seq<Act>)
    requires Durable(s) && Promise(s) && DulyRun(s, acts)
    ensures Durable(Run(Step, s, acts)) && Promise(Run(Step, s, acts))
    decreases |acts|
  {
    hide Durable, Promise, Duly, NewName, Step;
    if acts != [] {
      DurableKeeps(s, acts[0]);
      PromiseKeeps(s, acts[0]);
      ExactRun(Step(s, acts[0]), acts[1..]);
    }
  }

  /** A lone worker still does not find the name when it has the lock. */
  ghost predicate Alone(s: Site) {
    && (forall t, u :: t in s.pc && u in s.pc ==> t == u)
    && (forall t :: t in s.pc && (s.pc[t].NotFound? || s.pc[t].Locked?) ==> s.pc[t].user.name !in s.users)
  }

  lemma AloneKeeps(s: Site, a: Act)
    requires Alone(s)
    ensures Alone(Step(s, a)) && NewName(s, a)
  {
  }

  lemma OneWorker(threads: set<Thread>, rows: seq<User>, acts: seq<Act>)
    requires forall t, u :: t in threads && u in threads ==> t == u
    ensures Promise(Runs(threads, rows, acts))
  {
    var inv := (x: Site) => Alone(x) && Promise(x);
    forall x, a | inv(x)
      ensures inv(Step(x, a))
    {
      AloneKeeps(x, a);
      PromiseKeeps(x, a);
    }
    RunKeeps(Step, inv, Init(threads, rows), acts);
  }

  /** A name that no row has. */
  lemma {:induction false} FreshName(rows: seq<User>) returns (name: seq<char>)
    ensures !Named(rows, name)
    ensures forall i :: 0 <= i < |rows| ==> |rows[i].name| < |name|
  {
    if rows == [] {
      name := "a";
    } else {
      var front := rows[..|rows| - 1];
      var n := FreshName(front);
      name := n + rows[|rows| - 1].name;
      assert forall i :: 0 <= i < |front| ==> rows[i] == front[i];
      name := name + "a";
    }
  }

  /** The steps of a registration from the lock on, with the database's answer. */
  function Finishing(t: Thread, u: User, ok: bool): seq<Act> {
    var a := Act(t, Register(u), ok);
    [a, a, a]
  }

  lemma AfterFinishing(s: Site, t: Thread, u: User, ok: bool)
    requires t in s.pc && s.pc[t] == NotFound(u) && s.holder.None?
    ensures Run(Step, s, Finishing(t, u, ok)) ==
              s.(users := Insert(s.users, u), rows := if ok then s.rows + [u] else s.rows, tried := s.tried + [u],
                 pc := s.pc[t := Outside],
                 answers := s.answers + [Answer(Register(u), if ok then "/index.html" else "/regerror.html")])
  {
    var a := Act(t, Register(u), ok);
    hide Insert;
    assert [a, a, a][1..] == [a, a] && [a, a][1..] == [a] && [a][1..] == [];
    var s1 := Step(s, a);
    var s2 := Step(s1, a);
    assert s1 == Move(s, t, Locked(u)).(holder := Some(t));
    assert Run(Step, s, [a, a, a]) == Run(Step, s1, [a, a]) == Run(Step, s2, [a]) == Run(Step, Step(s2, a), []);
  }

  lemma OneStep(s: Site, a: Act)
    ensures Run(Step, s, [a]) == Step(s, a)
  {
    assert [a][1..] == [];
    assert Run(Step, s, [a]) == Run(Step, Step(s, a), []);
  }

  /** Two workers look for the same new name before either has the lock.  The second is told that its registration
      succeeded, and its password is not accepted. */
  lemma TwoRegister(threads: set<Thread>, rows: seq<User>, t: Thread, u: Thread) returns (acts: seq<Act>)
    requires t in threads && u in threads && t != u
    ensures !Promise(Runs(threads, rows, acts))
  {
    var name := FreshName(rows);
    LoadNames(rows, name);
    var (first, second) := (User(name, "x"), User(name, "y"));
    var (a, b) := (Act(t, Register(first), true), Act(u, Register(second), true));
    var s := Init(threads, rows);
    var s1 := Step(s, a);
    var s2 := Step(s1, b);
    OneStep(s, a);
    OneStep(s1, b);
    RunConcat(Step, s, [a], [b]);
    AfterFinishing(s2, t, first, true);
    RunConcat(Step, s, [a] + [b], Finishing(t, first, true));
    var s3 := Run(Step, s2, Finishing(t, first, true));
    AfterFinishing(s3, u, second, true);
    RunConcat(Step, s, [a] + [b] + Finishing(t, first, true), Finishing(u, second, true));
    acts := [a] + [b] + Finishing(t, first, true) + Finishing(u, second, true);
    var r := Runs(threads, rows, acts);
    assert r.users[name] == "x" && r.answers[1] == Answer(Register(second), "/index.html");
  }

  /** The query for a new name fails: the worker is told so, and the name is in the table all the same. */
  lemma RefusedIsKept(threads: set<Thread>, rows: seq<User>, t: Thread) returns (acts: seq<Act>, u: User)
    requires t in threads
    ensures var s := Runs(threads, rows, acts);
            s.answers == [Answer(Register(u), "/regerror.html")] && Accepts(s.users, u) && !Durable(s)
  {
    var name := FreshName(rows);
    LoadNames(rows, name);
    u := User(name, "x");
    var a := Act(t, Register(u), false);
    var s := Init(threads, rows);
    var s1 := Step(s, a);
    OneStep(s, a);
    AfterFinishing(s1, t, u, false);
    RunConcat(Step, s, [a], Finishing(t, u, false));
    acts := [a] + Finishing(t, u, false);
  }

  /** Who is told that the registration succeeded can log in from then on: true in all runs if and only if the
      database refuses exactly the names it has, or there is no second worker. */
  lemma PromiseIff(threads: set<Thread>, rows: seq<User>, exact: bool)
    ensures (forall acts :: (exact ==> DulyRun(Init(threads, rows), acts)) ==> Promise(Runs(threads, rows, acts)))
       <==> exact || forall t, u :: t in threads && u in threads ==> t == u
  {
    hide Promise, DulyRun;
    if exact || forall t, u :: t in threads && u in threads ==> t == u {
      forall acts | exact ==> DulyRun(Init(threads, rows), acts)
        ensures Promise(Runs(threads, rows, acts))
      {
        if exact {
          StartsWell(threads, rows);
          ExactRun(Init(threads, rows), acts);
        } else {
          OneWorker(threads, rows, acts);
        }
      }
    } else {
      var t, u :| t in threads && u in threads && t != u;
      var acts := TwoRegister(threads, rows, t, u);
    }
  }

  lemma StartsWell(threads: set<Thread>, rows: seq<User>)
    ensures Durable(Init(threads, rows)) && Promise(Init(threads, rows))
  {
  }

  /** A restart, which loads the table again, changes nothing: true at every moment of all runs if and only if the
      database refuses exactly the names it has, or nobody registers. */
  lemma DurableIff(threads: set<Thread>, rows: seq<User>, exact: bool)
    ensures (forall acts :: (exact ==> DulyRun(Init(threads, rows), acts)) ==> Durable(Runs(threads, rows, acts)))
       <==> exact || threads == {}
  {
    hide Durable, DulyRun, Promise;
    StartsWell(threads, rows);
    if exact {
      forall acts | DulyRun(Init(threads, rows), acts)
        ensures Durable(Runs(threads, rows, acts))
      {
        ExactRun(Init(threads, rows), acts);
      }
    } else if threads == {} {
      forall acts
        ensures Durable(Runs(threads, rows, acts))
      {
        NobodyThere(Init(threads, rows), acts);
      }
    } else {
      var t :| t in threads;
      var acts, u := RefusedIsKept(threads, rows, t);
    }
  }

  lemma {:induction false} NobodyThere(s: Site, acts: seq<Act>)
    requires s.pc == map[]
    ensures Run(Step, s, acts) == s
    decreases |acts|
  {
    if acts != [] {
      NobodyThere(s, acts[1..]);
    }
  }

  // ---- the code of the branch, among the other workers ----

  /** Where `t` stood before each of its steps. */
  ghost function PathOf(t: Thread, s: Site, acts: seq<Act>): seq<Pc> {
    Path(Step, (a: Act) => a.t == t, (x: Site) => if t in x.pc then x.pc[t] else Outside, s, acts)
  }

  lemma PathOneMore(t: Thread, s: Site, acts: seq<Act>, a: Act)
    ensures Run(Step, s, acts + [a]) == Step(Run(Step, s, acts), a)
    ensures a.t == t && t in Run(Step, s, acts).pc ==>
              PathOf(t, s, acts + [a]) == PathOf(t, s, acts) + [Run(Step, s, acts).pc[t]]
  {
    hide Step;
    OneMore(Step, (x: Act) => x.t == t, (x: Site) => if t in x.pc then x.pc[t] else Outside, s, acts, a);
  }

  /** Nothing is ever taken back: names keep their passwords, and the histories grow. */
  ghost predicate Grows(s: Site, r: Site) {
    && (forall name :: name in s.users ==> name in r.users && r.users[name] == s.users[name])
    && s.rows <= r.rows && s.tried <= r.tried && s.answers <= r.answers
  }

  lemma GrowsOn(s: Site, u: Site, r: Site)
    requires Grows(s, u) && Grows(u, r)
    ensures Grows(s, r)
  {
  }

  lemma StepGrows(s: Site, a: Act)
    ensures Grows(s, Step(s, a))
  {
  }

  /** The steps of the others do not move `t`. */
  lemma {:induction false} OthersRun(t: Thread, s: Site, acts: seq<Act>)
    requires t in s.pc && forall i :: 0 <= i < |acts| ==> acts[i].t != t
    ensures var r := Run(Step, s, acts); t in r.pc && r.pc[t] == s.pc[t] && Grows(s, r)
    decreases |acts|
  {
    if acts != [] {
      var u := Step(s, acts[0]);
      assert t in u.pc && u.pc[t] == s.pc[t];
      hide Step, Grows;
      StepGrows(s, acts[0]);
      OthersRun(t, u, acts[1..]);
      GrowsOn(s, u, Run(Step, s, acts));
    } else {
      assert Grows(s, s);
    }
  }

  lemma PathAmongOthers(t: Thread, s: Site, acts: seq<Act>, more: seq<Act>)
    requires forall i :: 0 <= i < |more| ==> more[i].t != t
    ensures PathOf(t, s, acts + more) == PathOf(t, s, acts)
    ensures Run(Step, s, acts + more) == Run(Step, Run(Step, s, acts), more)
  {
    hide Step;
    var (mine, at) := ((x: Act) => x.t == t, (x: Site) => if t in x.pc then x.pc[t] else Outside);
    RunConcat(Step, s, acts, more);
    PathConcat(Step, mine, at, s, acts, more);
    NoPath(Step, mine, at, Run(Step, s, acts), more);
  }

  /** The table on the heap.  Its state is that of a run from the start, `acts`; between two statements of the code
      below the other workers take any steps they like. */
  class SharedAccounts {
    ghost const threads: set<Thread>
    ghost const start: seq<User>
    var users: map<seq<char>, seq<char>>
    var rows: seq<User>
    var holder: Option<Thread>
    var pc: map<Thread, Pc>
    var tried: seq<User>
    var answers: seq<Answer>
    ghost var acts: seq<Act>

    function View(): Site
      reads this
    {
      Site(users, rows, holder, pc, tried, answers)
    }

    ghost predicate Valid()
      reads this
    {
      View() == Runs(threads, start, acts)
    }

    /** Where `t` stood before each of its steps since the start. */
    ghost function Trail(t: Thread): seq<Pc>
      reads this
    {
      PathOf(t, Init(threads, start), acts)
    }

    /** initmysql_result */
    constructor (threads: set<Thread>, rows: seq<User>)
      ensures Valid() && View() == Init(threads, rows)
    {
      this.threads, this.start := threads, rows;
      users, this.rows, holder := Load(rows), rows, None;
      pc := map t | t in threads :: Outside;
      tried, answers, acts := [], [], [];
    }

    /** Notes the step that was just taken on the fields. */
    ghost method Note(a: Act, before: Site)
      requires before == Runs(threads, start, acts) && a.t in before.pc && View() == Step(before, a)
      modifies this`acts
      ensures Valid() && Trail(a.t) == old(Trail(a.t)) + [before.pc[a.t]]
    {
      PathOneMore(a.t, Init(threads, start), acts, a);
      acts := acts + [a];
    }

    /** The other workers run, for as long and in whatever order they like. */
    method OthersGo(t: Thread)
      requires Valid() && t in pc
      modifies this
      ensures Valid() && t in pc && pc[t] == old(pc[t]) && Trail(t) == old(Trail(t)) && Grows(old(View()), View())
    {
      hide Step, Grows;
      var more: seq<Act> := *;
      more := Others(more, (a: Act) => a.t == t);
      var s := Run(Step, View(), more);
      OthersRun(t, View(), more);
      PathAmongOthers(t, Init(threads, start), acts, more);
      users, rows, holder, pc, tried, answers := s.users, s.rows, s.holder, s.pc, s.tried, s.answers;
      acts := acts + more;
    }

    /** The login branch: the page says whether the table has this password for the name. */
    method LogIn(t: Thread, u: User) returns (page: seq<char>)
      requires Valid() && t in pc && pc[t].Outside?
      modifies this
      ensures Valid() && t in pc && pc[t].Outside? && Trail(t) == old(Trail(t)) + [Outside]
      ensures page == if u.name in users && users[u.name] == u.password then "/1.html" else "/logerror.html"
      ensures Added(old(answers), answers, Answer(Login(u), page)) && Grows(old(View()), View())
    {
      OthersGo(t);
      ghost var before := View();
      page := "/logerror.html";
      if u.name in users && users[u.name] == u.password {
        page := "/1.html";
      }
      AddedOne(old(answers), answers, Answer(Login(u), page), answers + [Answer(Login(u), page)]);
      answers, pc := answers + [Answer(Login(u), page)], pc[t := Outside];
      Note(Act(t, Login(u), false), before);
      StepGrows(before, Act(t, Login(u), false));
      GrowsOn(old(View()), before, View());
    }

    /** The test whether the name is in the table, outside the lock; if it is, that is the answer. */
    method LookUp(t: Thread, u: User) returns (known: bool)
      requires Valid() && t in pc && pc[t].Outside?
      modifies this
      ensures Valid() && t in pc && pc[t] == (if known then Outside else NotFound(u))
      ensures Trail(t) == old(Trail(t)) + [Outside] && Grows(old(View()), View())
      ensures known <==> u.name in users
      ensures known ==> Added(old(answers), answers, Answer(Register(u), "/regerror.html"))
    {
      OthersGo(t);
      ghost var before := View();
      known := u.name in users;
      if known {
        var answer := Answer(Register(u), "/regerror.html");
        AddedOne(old(answers), answers, answer, answers + [answer]);
        answers, pc := answers + [answer], pc[t := Outside];
      } else {
        pc := pc[t := NotFound(u)];
      }
      Note(Act(t, Register(u), false), before);
      StepGrows(before, Act(t, Register(u), false));
      GrowsOn(old(View()), before, View());
    }

    /** m_lock.lock(): `got` unless the others never leave it free. */
    method Lock(t: Thread, u: User) returns (got: bool)
      requires Valid() && t in pc && pc[t] == NotFound(u)
      modifies this
      ensures Valid() && t in pc && pc[t] == if got then Locked(u) else NotFound(u)
      ensures Trail(t) == old(Trail(t)) + (if got then [NotFound(u)] else []) && Grows(old(View()), View())
      ensures !got ==> holder.Some?
    {
      OthersGo(t);
      ghost var before := View();
      if holder.Some? {
        return false;
      }
      holder, pc := Some(t), pc[t := Locked(u)];
      Note(Act(t, Register(u), false), before);
      StepGrows(before, Act(t, Register(u), false));
      GrowsOn(old(View()), before, View());
      return true;
    }

    /** The query and the insert into the table, which keeps a password that is there by now. */
    method QueryAndInsert(t: Thread, u: User) returns (ok: bool)
      requires Valid() && t in pc && pc[t] == Locked(u)
      modifies this
      ensures Valid() && t in pc && pc[t] == Queried(u, ok)
      ensures Trail(t) == old(Trail(t)) + [Locked(u)] && Grows(old(View()), View())
      ensures u.name in users && Added(old(tried), tried, u) && (ok ==> Added(old(rows), rows, u))
    {
      OthersGo(t);
      ghost var before := View();
      ok := *;
      AddedOne(old(tried), tried, u, tried + [u]);
      AddedOne(old(rows), rows, u, rows + [u]);
      if ok {
        rows := rows + [u];
      }
      if u.name !in users {
        users := users[u.name := u.password];
      }
      tried, pc := tried + [u], pc[t := Queried(u, ok)];
      Note(Act(t, Register(u), ok), before);
      StepGrows(before, Act(t, Register(u), ok));
      GrowsOn(old(View()), before, View());
    }

    /** m_lock.unlock() and the page for the query's result. */
    method UnlockAndReply(t: Thread, u: User, ok: bool) returns (page: seq<char>)
      requires Valid() && t in pc && pc[t] == Queried(u, ok)
      modifies this
      ensures Valid() && t in pc && pc[t].Outside? && page == if ok then "/index.html" else "/regerror.html"
      ensures Trail(t) == old(Trail(t)) + [Queried(u, ok)] && Grows(old(View()), View())
      ensures Added(old(answers), answers, Answer(Register(u), page))
    {
      OthersGo(t);
      ghost var before := View();
      page := if ok then "/index.html" else "/regerror.html";
      AddedOne(old(answers), answers, Answer(Register(u), page), answers + [Answer(Register(u), page)]);
      holder, pc, answers := None, pc[t := Outside], answers + [Answer(Register(u), page)];
      Note(Act(t, Register(u), ok), before);
      StepGrows(before, Act(t, Register(u), ok));
      GrowsOn(old(View()), before, View());
    }

    /** The statements of the registration branch from the query on. */
    method Enrol(t: Thread, u: User) returns (page: seq<char>)
      requires Valid() && t in pc && pc[t] == Locked(u)
      modifies this
      ensures Valid() && t in pc && pc[t].Outside? && u.name in users && Grows(old(View()), View())
      ensures page == "/index.html" || page == "/regerror.html"
      ensures Trail(t) == old(Trail(t)) + [Locked(u), Queried(u, page == "/index.html")]
      ensures Added(old(answers), answers, Answer(Register(u), page)) && Added(old(tried), tried, u)
      ensures page == "/index.html" ==> Added(old(rows), rows, u)
    {
      hide Step, Runs, Run, Init, PathOf, Insert;
      var ok := QueryAndInsert(t, u);
      ghost var now := View();
      page := UnlockAndReply(t, u, ok);
      AddedLonger(old(tried), now.tried, tried, u);
      if ok {
        AddedLonger(old(rows), now.rows, rows, u);
      }
      AddedLater(old(answers), now.answers, answers, Answer(Register(u), page));
      GrowsOn(old(View()), now, View());
    }

    /** The registration branch: None while it waits for the lock. */
    method SignUp(t: Thread, u: User) returns (page: Option<seq<char>>)
      requires Valid() && t in pc && pc[t].Outside?
      modifies this
      ensures Valid() && t in pc
      ensures match page
              case None => pc[t] == NotFound(u) && holder.Some? && Trail(t) == old(Trail(t)) + [Outside]
              case Some(p) =>
                && pc[t].Outside? && u.name in users && Added(old(answers), answers, Answer(Register(u), p))
                && (|| (p == "/regerror.html" && Trail(t) == old(Trail(t)) + [Outside])
                    || (&& Added(old(tried), tried, u) && (p == "/index.html" ==> Added(old(rows), rows, u))
                        && (p == "/index.html" || p == "/regerror.html")
                        && Trail(t) == old(Trail(t)) +
                             [Outside, NotFound(u), Locked(u), Queried(u, p == "/index.html")]))
    {
      hide Step, Runs, Run, Init, PathOf, Insert;
      var known := LookUp(t, u);
      if known {
        return Some("/regerror.html");
      }
      ghost var found := View();
      var got := Lock(t, u);
      if !got {
        return None;
      }
      ghost var now := View();
      GrowsOn(old(View()), found, now);
      var p := Enrol(t, u);
      AddedLater(old(answers), now.answers, answers, Answer(Register(u), p));
      AddedLater(old(tried), now.tried, tried, u);
      if p == "/index.html" {
        AddedLater(old(rows), now.rows, rows, u);
      }
      return Some(p);
    }
  }

  lemma AddedLonger<X>(a: seq<X>, b: seq<X>, c: seq<X>, x: X)
    requires Added(a, b, x) && b <= c
    ensures Added(a, c, x)
  {
    assert b[|a|..] <= c[|a|..];
  }
}
