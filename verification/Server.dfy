/**
 The event loop's code on the objects: each branch of main.cpp works on the connection table, the timer
 table and the linked timer list, and takes the step that EventLoop describes.
 */
module Server {
  import opened TimerList
  import opened EventLoop

  /** The timers of a list as entries. */
  ghost function Entries(nodes: seq<UtilTimer>): (list: seq<Entry<UtilTimer>>)
    reads nodes`expire, nodes`fd
    ensures |list| == |nodes|
    ensures forall i :: 0 <= i < |nodes| ==> list[i] == Entry(nodes[i], nodes[i].fd, nodes[i].expire)
  {
    if nodes == [] then [] else [Entry(nodes[0], nodes[0].fd, nodes[0].expire)] + Entries(nodes[1..])
  }

  lemma ExpiriesOfEntries(nodes: seq<UtilTimer>)
    ensures Expiries(Entries(nodes)) == Keys(nodes)
  {
    hide Entries, Keys, Expiries;
    var (a, b) := (Expiries(Entries(nodes)), Keys(nodes));
    forall i | 0 <= i < |nodes|
      ensures a[i] == b[i]
    {
      assert a[i] == Entries(nodes)[i].expire;
    }
  }

  lemma EntriesInsert(nodes: seq<UtilTimer>, k: nat, x: UtilTimer)
    requires k <= |nodes|
    ensures Entries(InsertAt(nodes, k, x)) == InsertAt(Entries(nodes), k, Entry(x, x.fd, x.expire))
  {
    hide Entries, InsertAt;
    var (r, list) := (InsertAt(nodes, k, x), InsertAt(Entries(nodes), k, Entry(x, x.fd, x.expire)));
    forall i | 0 <= i < |r|
      ensures Entries(r)[i] == list[i]
    {
      assert Entries(r)[i] == Entry(r[i], r[i].fd, r[i].expire);
    }
  }

  lemma EntriesRemove(nodes: seq<UtilTimer>, k: nat)
    requires k < |nodes|
    ensures Entries(RemoveAt(nodes, k)) == RemoveAt(Entries(nodes), k)
  {
    hide Entries, RemoveAt;
    var (r, list) := (RemoveAt(nodes, k), RemoveAt(Entries(nodes), k));
    forall i | 0 <= i < |r|
      ensures Entries(r)[i] == list[i]
    {
      assert Entries(r)[i] == Entry(r[i], r[i].fd, r[i].expire);
    }
  }

  lemma AcceptStep(s: Loop<UtilTimer>, fd: nat, cur: int, id: UtilTimer)
    requires Inv(s) && Enabled(s, Accept(fd, cur, id))
    ensures Inv(Next(s, Accept(fd, cur, id)))
    ensures Next(s, Accept(fd, cur, id)) == Opened(s, fd, cur, id)
  {
    hide Inv, Opened;
  }

  lemma TooManyStep(s: Loop<UtilTimer>, cur: int)
    requires Inv(s) && Enabled(s, TooMany(cur))
    ensures Next(s, TooMany(cur)) == s.(now := cur)
  {
    hide Inv;
  }

  lemma CloseStep(s: Loop<UtilTimer>, fd: nat)
    requires Inv(s) && fd in s.open
    ensures Next(s, HangUp(fd)) == Close(s, fd) == Next(s, WorkerClose(fd))
  {
    hide Inv, Close;
  }

  lemma SkipStep(s: Loop<UtilTimer>)
    ensures Next(s, Tick(s.now - 1)) == s
  {
    hide Inv;
  }

  lemma StartOfRun(s: Loop<UtilTimer>)
    ensures Run(s, []) == s
  {
  }

  lemma ReadableStep(s: Loop<UtilTimer>, fd: nat, ok: bool, cur: int)
    requires Inv(s) && fd in s.open && s.now <= cur
    ensures fd in s.timerOf && Index(s.list, s.timerOf[fd]) < |s.list|
    ensures Inv(Next(s, Readable(fd, ok, cur)))
    ensures Next(s, Readable(fd, ok, cur)) == if ok then Refresh(s, fd, cur) else Drop(s, fd, cur)
  {
    TimerIsListed(s, fd);
    hide Inv, Refresh, Drop, Close, CloseAll, Opened, Place, Expiries, Index;
  }

  lemma WritableStep(s: Loop<UtilTimer>, fd: nat, ok: bool, cur: int)
    requires Inv(s) && fd in s.open && s.now <= cur
    ensures Next(s, Writable(fd, ok, cur)) == Next(s, Readable(fd, ok, cur))
  {
    hide Inv, Refresh, Drop, Close, CloseAll, Opened, Place, Expiries, Index;
  }

  lemma TimerOfOpen(s: Loop<UtilTimer>, fd: nat, cur: int)
    requires Inv(s) && fd in s.open && s.now <= cur
    ensures fd in s.timerOf && Index(s.list, s.timerOf[fd]) < |s.list|
    ensures s.list[Index(s.list, s.timerOf[fd])].id == s.timerOf[fd] && s.list[Index(s.list, s.timerOf[fd])].fd == fd
    ensures forall i :: 0 <= i < |s.list| ==> s.list[i].expire <= cur + TIMEOUT
  {
    NoneLater(s.list, s.now, s.stamp, s.turn);
    assert HasTimer(s, fd);
  }

  lemma EntriesSplit(nodes: seq<UtilTimer>, k: nat)
    requires k <= |nodes|
    ensures Entries(nodes[..k]) == Entries(nodes)[..k] && Entries(nodes[k..]) == Entries(nodes)[k..]
  {
    hide Entries;
    var (list, front, back) := (Entries(nodes), Entries(nodes[..k]), Entries(nodes[k..]));
    forall i | 0 <= i < k
      ensures front[i] == list[..k][i]
    {
      assert list[i] == Entry(nodes[i], nodes[i].fd, nodes[i].expire);
    }
    forall i | 0 <= i < |nodes| - k
      ensures back[i] == list[k..][i]
    {
      assert list[k + i] == Entry(nodes[k + i], nodes[k + i].fd, nodes[k + i].expire);
    }
  }

  lemma TickStep(s: Loop<UtilTimer>, cur: int)
    requires Inv(s) && s.now <= cur
    ensures var (t, k) := (Next(s, Tick(cur)), Place(Expiries(s.list), cur));
            Inv(t) && t.count == |t.open| && t == CloseAll(s, s.list[..k]).(list := s.list[k..], now := cur)
    ensures var t := Next(s, Tick(cur)); forall fd :: fd in t.open ==> fd in t.active && cur < t.active[fd] + TIMEOUT
  {
    hide HasTimer, ListInv, CloseAll, Place;
    TickKeeps(s, cur);
  }

  lemma {:induction false} CloseAllFrame(s: Loop<UtilTimer>, fired: seq<Entry<UtilTimer>>, list: seq<Entry<UtilTimer>>)
    ensures CloseAll(s.(list := list), fired) == CloseAll(s, fired).(list := list)
    decreases |fired|
  {
    if fired != [] {
      CloseAllFrame(Close(s, fired[0].fd), fired[1..], list);
    }
  }

  /** What the outside brings to the loop, and when. */
  datatype Arrival =
    | NewConn(fd: nat, cur: int)
    | Hung(fd: nat, cur: int)
    | WorkerDone(fd: nat, cur: int)
    | In(fd: nat, ok: bool, cur: int)
    | Out(fd: nat, ok: bool, cur: int)
    | Alarm(cur: int)

  /** The event that an arrival is in state `s`.  An accept or an event that cannot occur there, for a descriptor that
      is open already or is not open, is a tick of the past, which changes nothing. */
  ghost predicate Took(s: Loop<UtilTimer>, a: Arrival, e: Event<UtilTimer>) {
    var skip := Tick(s.now - 1);
    match a
    case NewConn(fd, cur) =>
      if fd in s.open then e == skip
      else if s.count >= MAX_FD then e == TooMany(cur)
      else e.Accept? && e.fd == fd && e.cur == cur
    case Hung(fd, cur) => e == if fd in s.open then HangUp(fd) else skip
    case WorkerDone(fd, cur) => e == if fd in s.open then WorkerClose(fd) else skip
    case In(fd, ok, cur) => e == if fd in s.open then Readable(fd, ok, cur) else skip
    case Out(fd, ok, cur) => e == if fd in s.open then Writable(fd, ok, cur) else skip
    case Alarm(cur) => e == Tick(cur)
  }

  class EventServer {
    const timers: SortTimerList
    var openFds: set<nat>
    var usersTimer: map<nat, UtilTimer>
    var userCount: int
    ghost var active: map<nat, int>
    ghost var now: int
    ghost var stamp: map<UtilTimer, nat>
    ghost var turn: nat

    ghost function View(): Loop<UtilTimer>
      reads this, timers, timers.nodes
    {
      Loop(openFds, usersTimer, Entries(timers.nodes), userCount, active, now, stamp, turn)
    }

    /** The timers on the list, as objects. */
    ghost function Members(): set<object>
      reads timers
    {
      set t: object | t in timers.nodes
    }

    ghost predicate Valid()
      reads this, timers, timers.nodes
    {
      timers.Valid() && Inv(View())
    }

    constructor (start: int)
      ensures Valid() && View() == Init(start) && fresh(timers)
    {
      timers := new SortTimerList();
      openFds, usersTimer, userCount := {}, map[], 0;
      active, now, stamp, turn := map[], start, map[], 0;
    }

    /** new util_timer and add_timer */
    method NewTimer(fd: nat, expire: int) returns (timer: UtilTimer)
      requires timers.Valid()
      modifies timers, Members()
      ensures timers.Valid() && fresh(timer)
      ensures fresh(Members() - old(Members()))
      ensures Entries(timers.nodes) == Enter(old(Entries(timers.nodes)), Entry(timer, fd, expire))
    {
      hide Entries, Keys, Place, InsertAt, SortTimerList.Linked, Ascending;
      timer := new UtilTimer(fd, expire);
      ExpiriesOfEntries(timers.nodes);
      EntriesInsert(timers.nodes, Place(Keys(timers.nodes), timer.expire), timer);
      timers.AddTimer(timer);
    }

    /** A connection is accepted at time `cur` and gets a timer, unless there are too many; `e` is the step. */
    method AcceptConn(cfd: nat, cur: int) returns (ghost e: Event<UtilTimer>)
      requires Valid() && cfd !in openFds && now <= cur
      modifies this, timers, Members()
      ensures Valid()
      ensures fresh(Members() - old(Members()))
      ensures View() == Next(old(View()), e) && now == cur
      ensures if old(userCount) >= 65535 then e == TooMany(cur)
              else e.Accept? && e.fd == cfd && e.cur == cur && fresh(e.id)
    {
      hide Entries, Enter, Inv, SortTimerList.Linked, Ascending, Keys, Next;
      ghost var s := View();
      if userCount >= MAX_FD {
        now := cur;
        LaterKeeps(s, cur);
        TooManyStep(s, cur);
        return TooMany(cur);
      }
      var timer := NewTimer(cfd, cur + TIMEOUT);
      ghost var list := Entries(timers.nodes);
      openFds, userCount, usersTimer := openFds + {cfd}, userCount + 1, usersTimer[cfd := timer];
      active, now, stamp, turn := active[cfd := cur], cur, stamp[timer := turn], turn + 1;
      assert Entries(timers.nodes) == list && timers.Valid();
      AcceptStep(s, cfd, cur, timer);
      assert View() == Opened(s, cfd, cur, timer);
      hide Opened;
      e := Accept(cfd, cur, timer);
    }

    /** close_conn */
    method CloseFd(fd: nat)
      requires timers.Valid()
      modifies this`openFds, this`userCount
      ensures timers.Valid() && View() == Close(old(View()), fd)
    {
      hide Entries, SortTimerList.Linked, Ascending, Keys;
      if fd in openFds {
        openFds, userCount := openFds - {fd}, userCount - 1;
      }
    }

    /** close_conn, reached by a hang-up event or by a worker. */
    method CloseConn(fd: nat)
      requires Valid()
      modifies this`openFds, this`userCount
      ensures Valid() && View() == Close(old(View()), fd)
    {
      hide Entries, Inv;
      ghost var s := View();
      CloseKeeps(s, fd);
      CloseFd(fd);
    }

    /** The expiry of a list member grows and adjust_timer moves it. */
    method TouchTimer(timer: UtilTimer, expire: int, ghost k: nat)
      requires timers.Valid() && k < |timers.nodes| && timers.nodes[k] == timer && timer.expire <= expire
      modifies timers, Members()
      ensures timers.Valid()
      ensures Members() <= old(Members())
      ensures Entries(timers.nodes) == Enter(RemoveAt(old(Entries(timers.nodes)), k), Entry(timer, timer.fd, expire))
      ensures timer.fd == old(timer.fd)
    {
      hide Entries, Keys, Place, InsertAt, RemoveAt, SortTimerList.Linked, Ascending;
      ghost var rest := RemoveAt(timers.nodes, k);
      timers.MemberOnce(k);
      EntriesRemove(timers.nodes, k);
      KeysRemove(timers.nodes, k);
      ExpiriesOfEntries(rest);
      ghost var (list, keys) := (Entries(rest), Keys(rest));
      timers.Postpone(timer, expire, k);
      assert Entries(rest) == list;
      EntriesInsert(rest, Place(keys, expire), timer);
    }

    /** read() or write() succeeded: the descriptor's timer is pushed back. */
    method Active(fd: nat, cur: int)
      requires Valid() && fd in openFds && now <= cur
      modifies this, timers, Members()
      ensures Valid() && fresh(Members() - old(Members())) && now == cur
      ensures View() == Next(old(View()), Readable(fd, true, cur))
    {
      hide Entries, Keys, Inv, Enter, Place, SortTimerList.Linked, Ascending, RemoveAt, Next, Index;
      ghost var s := View();
      ReadableStep(s, fd, true, cur);
      TimerOfOpen(s, fd, cur);
      var timer := usersTimer[fd];
      TouchTimer(timer, cur + TIMEOUT, Index(s.list, timer));
      ghost var list := Entries(timers.nodes);
      active, now, stamp, turn := active[fd := cur], cur, stamp[timer := turn], turn + 1;
      assert Entries(timers.nodes) == list && timers.Valid();
      assert View() == Refresh(s, fd, cur);
      hide Refresh;
    }

    /** read() or write() failed: the connection is closed and its timer deleted. */
    method Ended(fd: nat, cur: int)
      requires Valid() && fd in openFds && now <= cur
      modifies this, timers, Members()
      ensures Valid() && fresh(Members() - old(Members())) && now == cur
      ensures View() == Next(old(View()), Readable(fd, false, cur))
    {
      hide Entries, Keys, Inv, Enter, Place, SortTimerList.Linked, Ascending, RemoveAt, Next, Index;
      ghost var s := View();
      ReadableStep(s, fd, false, cur);
      TimerOfOpen(s, fd, cur);
      var timer := usersTimer[fd];
      ghost var k := Index(s.list, timer);
      EntriesRemove(timers.nodes, k);
      CloseFd(fd);
      timers.DelTimer(timer, k);
      ghost var list := Entries(timers.nodes);
      now := cur;
      assert Entries(timers.nodes) == list && timers.Valid();
      assert View() == Drop(s, fd, cur);
      hide Drop;
    }

    /** The readable and writable events. */
    method Served(fd: nat, ok: bool, cur: int)
      requires Valid() && fd in openFds && now <= cur
      modifies this, timers, Members()
      ensures Valid() && fresh(Members() - old(Members())) && now == cur
      ensures View() == Next(old(View()), Readable(fd, ok, cur)) == Next(old(View()), Writable(fd, ok, cur))
    {
      hide Entries, Inv, SortTimerList.Linked, Ascending, Keys, Next;
      WritableStep(View(), fd, ok, cur);
      if ok {
        Active(fd, cur);
      } else {
        Ended(fd, cur);
      }
    }

    /** timer_handler: the callbacks close the connections of the expired timers. */
    method OnTimeout(cur: int)
      requires Valid() && now <= cur
      modifies this, timers, Members()
      ensures Valid() && View() == Next(old(View()), Tick(cur))
      ensures fresh(Members() - old(Members()))
      ensures userCount == |openFds| && now == cur
      ensures forall fd :: fd in openFds ==> fd in active && cur < active[fd] + 15
    {
      hide Entries, Keys, Inv, Place, SortTimerList.Linked, Ascending, CloseAll, Next;
      ghost var s := View();
      TickStep(s, cur);
      ExpiriesOfEntries(timers.nodes);
      ghost var k := Place(Keys(timers.nodes), cur);
      EntriesSplit(timers.nodes, k);
      var fired := timers.Tick(cur);
      ghost var list := Entries(timers.nodes);
      CloseAllFrame(s, s.list[..k], list);
      assert View() == s.(list := list);
      RunCallbacks(fired, s.list[..k]);
      now := cur;
      assert Entries(timers.nodes) == list && timers.Valid();
      assert View() == Next(s, Tick(cur));
    }

    /** The callbacks of the expired timers, first to last. */
    method RunCallbacks(fired: seq<UtilTimer>, ghost list: seq<Entry<UtilTimer>>)
      requires timers.Valid() && |list| == |fired| && forall i :: 0 <= i < |fired| ==> list[i].fd == fired[i].fd
      modifies this`openFds, this`userCount
      ensures timers.Valid() && View() == CloseAll(old(View()), list)
    {
      hide Entries, Chained, Ascending, Distinct, Keys;
      var i := 0;
      assert list[0..] == list;
      while i < |fired|
        invariant 0 <= i <= |fired|
        invariant timers.Valid() && CloseAll(View(), list[i..]) == CloseAll(old(View()), list)
      {
        var fd := fired[i].fd;
        assert list[i..][0].fd == fd && list[i..][1..] == list[i + 1..];
        CloseFd(fd);
        i := i + 1;
      }
    }

    /** One event; one that cannot occur in the present state is passed over. */
    method Dispatch(a: Arrival) returns (ghost e: Event<UtilTimer>)
      requires Valid() && now <= a.cur
      modifies this, timers, Members()
      ensures Valid()
      ensures fresh(Members() - old(Members()))
      ensures Took(old(View()), a, e) && View() == Next(old(View()), e) && now <= a.cur
    {
      hide Entries, Inv, SortTimerList.Linked, Ascending, Keys, Next;
      ghost var s := View();
      match a {
        case NewConn(fd, cur) =>
          if fd !in openFds {
            e := AcceptConn(fd, cur);
            return;
          }
        case Hung(fd, cur) =>
          if fd in openFds {
            CloseStep(s, fd);
            CloseConn(fd);
            return HangUp(fd);
          }
        case WorkerDone(fd, cur) =>
          if fd in openFds {
            CloseStep(s, fd);
            CloseConn(fd);
            return WorkerClose(fd);
          }
        case In(fd, ok, cur) =>
          if fd in openFds {
            Served(fd, ok, cur);
            return Readable(fd, ok, cur);
          }
        case Out(fd, ok, cur) =>
          if fd in openFds {
            Served(fd, ok, cur);
            return Writable(fd, ok, cur);
          }
        case Alarm(cur) =>
          OnTimeout(cur);
          return Tick(cur);
      }
      e := Tick(now - 1);
      SkipStep(s);
    }

    /** The loop of main: whatever arrives, under a clock that does not go back, the objects follow the run of the
        transition system whose events are those arrivals, one for one. */
    method Serve(arrivals: seq<Arrival>) returns (ghost events: seq<Event<UtilTimer>>)
      requires Valid()
      requires forall i :: 0 <= i < |arrivals| ==> now <= arrivals[i].cur
      requires forall i, j :: 0 <= i < j < |arrivals| ==> arrivals[i].cur <= arrivals[j].cur
      modifies this, timers, Members()
      ensures Valid() && View() == Run(old(View()), events) && |events| == |arrivals|
      ensures forall i :: 0 <= i < |arrivals| ==> Took(Run(old(View()), events[..i]), arrivals[i], events[i])
    {
      hide Entries, Inv, Ascending, Keys, Next, Run, Took;
      ghost var s := View();
      events := [];
      StartOfRun(s);
      var i := 0;
      while i < |arrivals|
        invariant 0 <= i <= |arrivals|
        invariant Valid() && View() == Run(s, events) && |events| == i
        invariant forall j :: 0 <= j < i ==> Took(Run(s, events[..j]), arrivals[j], events[j])
        invariant forall j :: i <= j < |arrivals| ==> now <= arrivals[j].cur
        invariant fresh(Members() - old(Members()))
      {
        ghost var e := Dispatch(arrivals[i]);
        RunOneMore(s, events, e);
        assert (events + [e])[..i] == events;
        assert forall j :: 0 <= j < i ==> (events + [e])[..j] == events[..j];
        events := events + [e];
        i := i + 1;
      }
    }
  }
}
