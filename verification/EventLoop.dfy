/**
 The event loop of main.cpp over its connection table, timer table, timer list and clock, as a transition
 system.  `T` stands for the addresses of the timers.  Server.dfy proves that the loop's code on the
 linked list takes these steps.
 */
module EventLoop {
  import opened TimerList

  const MAX_FD := 65535
  const TIMEOUT := 15

  datatype Entry<T> = Entry(id: T, fd: nat, expire: int)

  /** `open` are the descriptors with m_sockfd != -1, `timerOf` is users_timer[fd].timer, `count` is
      m_user_count.  `active` remembers the last activity of each descriptor, `stamp` and `turn` number
      the refreshes of the timers. */
  datatype Loop<T(==)> = Loop(open: set<nat>, timerOf: map<nat, T>, list: seq<Entry<T>>, count: int,
                              active: map<nat, int>, now: int, stamp: map<T, nat>, turn: nat)

  /** What epoll_wait and the clock bring; TooMany is an accept with the table full.  `ok` is what read() or
      write() returned; `id` is the address of the timer that accept allocates. */
  datatype Event<T> =
    | Accept(fd: nat, cur: int, id: T)
    | TooMany(cur: int)
    | HangUp(fd: nat)
    | WorkerClose(fd: nat)
    | Readable(fd: nat, ok: bool, cur: int)
    | Writable(fd: nat, ok: bool, cur: int)
    | Tick(cur: int)

  function Expiries<T>(list: seq<Entry<T>>): (keys: seq<int>)
    ensures |keys| == |list| && forall i :: 0 <= i < |list| ==> keys[i] == list[i].expire
  {
    seq(|list|, i requires 0 <= i < |list| => list[i].expire)
  }

  function Index<T(==)>(list: seq<Entry<T>>, id: T): (k: nat)
    ensures k <= |list| && (k < |list| ==> list[k].id == id)
    ensures forall i :: 0 <= i < k ==> list[i].id != id
  {
    if list == [] || list[0].id == id then 0 else 1 + Index(list[1..], id)
  }

  /** close_conn */
  function Close<T(==)>(s: Loop<T>, fd: nat): Loop<T> {
    if fd in s.open then s.(open := s.open - {fd}, count := s.count - 1) else s
  }

  /** The callbacks of the expired timers. */
  function CloseAll<T(==)>(s: Loop<T>, fired: seq<Entry<T>>): Loop<T>
    decreases |fired|
  {
    if fired == [] then s else CloseAll(Close(s, fired[0].fd), fired[1..])
  }

  /** A timer goes into the list in order. */
  function Enter<T(==)>(list: seq<Entry<T>>, e: Entry<T>): seq<Entry<T>> {
    InsertAt(list, Place(Expiries(list), e.expire), e)
  }

  /** No timer on the list has this address; one that was deleted may have had it. */
  predicate Unlisted<T(==)>(list: seq<Entry<T>>, id: T) {
    forall i :: 0 <= i < |list| ==> list[i].id != id
  }

  predicate Enabled<T(==)>(s: Loop<T>, e: Event<T>) {
    match e
    case Accept(fd, cur, id) => s.count < MAX_FD && fd !in s.open && s.now <= cur && Unlisted(s.list, id)
    case TooMany(cur) => s.count >= MAX_FD && s.now <= cur
    case HangUp(fd) => fd in s.open
    case WorkerClose(fd) => fd in s.open
    case Readable(fd, ok, cur) => fd in s.open && s.now <= cur
    case Writable(fd, ok, cur) => fd in s.open && s.now <= cur
    case Tick(cur) => s.now <= cur
  }

  function Opened<T(==)>(s: Loop<T>, fd: nat, cur: int, id: T): Loop<T> {
    s.(open := s.open + {fd}, timerOf := s.timerOf[fd := id], count := s.count + 1,
       list := Enter(s.list, Entry(id, fd, cur + TIMEOUT)),
       active := s.active[fd := cur], now := cur, stamp := s.stamp[id := s.turn], turn := s.turn + 1)
  }

  function Refresh<T(==)>(s: Loop<T>, fd: nat, cur: int): Loop<T>
    requires fd in s.timerOf && Index(s.list, s.timerOf[fd]) < |s.list|
  {
    var k := Index(s.list, s.timerOf[fd]);
    s.(list := Enter(RemoveAt(s.list, k), s.list[k].(expire := cur + TIMEOUT)),
       active := s.active[fd := cur], now := cur, stamp := s.stamp[s.timerOf[fd] := s.turn], turn := s.turn + 1)
  }

  function Drop<T(==)>(s: Loop<T>, fd: nat, cur: int): Loop<T>
    requires fd in s.timerOf && Index(s.list, s.timerOf[fd]) < |s.list|
  {
    Close(s, fd).(list := RemoveAt(s.list, Index(s.list, s.timerOf[fd])), now := cur)
  }

  /** One step of the loop. */
  function Step<T(==)>(s: Loop<T>, e: Event<T>): Loop<T>
    requires Inv(s) && Enabled(s, e)
  {
    match e
    case Accept(fd, cur, id) => Opened(s, fd, cur, id)
    case TooMany(cur) => s.(now := cur)
    case HangUp(fd) => Close(s, fd)
    case WorkerClose(fd) => Close(s, fd)
    case Readable(fd, ok, cur) => if ok then Refresh(s, fd, cur) else Drop(s, fd, cur)
    case Writable(fd, ok, cur) => if ok then Refresh(s, fd, cur) else Drop(s, fd, cur)
    case Tick(cur) =>
      var k := Place(Expiries(s.list), cur);
      CloseAll(s, s.list[..k]).(list := s.list[k..], now := cur)
  }

  /** The timer of an open descriptor is on the list, belongs to it, and expires 15 seconds after its last
      activity. */
  ghost predicate HasTimer<T>(s: Loop<T>, fd: nat) {
    && fd in s.timerOf && fd in s.active
    && Index(s.list, s.timerOf[fd]) < |s.list|
    && s.list[Index(s.list, s.timerOf[fd])] == Entry(s.timerOf[fd], fd, s.active[fd] + TIMEOUT)
  }

  /** The list holds each timer once, in the order of expiry, which is the order of the last refresh. */
  ghost predicate ListInv<T>(list: seq<Entry<T>>, now: int, stamp: map<T, nat>, turn: nat) {
    && Ascending(Expiries(list))
    && (forall i :: 0 <= i < |list| ==>
          list[i].id in stamp && stamp[list[i].id] < turn && list[i].expire <= now + TIMEOUT)
    && (forall i, j :: 0 <= i < j < |list| ==> stamp[list[i].id] < stamp[list[j].id])
  }

  ghost predicate Inv<T>(s: Loop<T>) {
    && ListInv(s.list, s.now, s.stamp, s.turn)
    && (forall fd :: fd in s.open ==> HasTimer(s, fd))
    && s.count == |s.open|
  }

  /** Every timer that adjust_timer or del_timer gets is a live member of the list. */
  lemma TimerIsListed<T>(s: Loop<T>, fd: nat)
    requires Inv(s) && fd in s.open
    ensures fd in s.timerOf && Index(s.list, s.timerOf[fd]) < |s.list|
  {
    assert HasTimer(s, fd);
  }

  /** With a clock that does not go back, a refreshed timer goes to the end of the list. */
  lemma EntersAtEnd<T>(list: seq<Entry<T>>, e: Entry<T>)
    requires forall i :: 0 <= i < |list| ==> list[i].expire <= e.expire
    ensures Enter(list, e) == list + [e]
  {
    PlaceIs(Expiries(list), e.expire, |list|);
  }

  lemma IndexIs<T>(list: seq<Entry<T>>, id: T, k: nat)
    requires k < |list| && list[k].id == id && forall i :: 0 <= i < k ==> list[i].id != id
    ensures Index(list, id) == k
  {
  }

  lemma AppendListInv<T>(list: seq<Entry<T>>, now: int, stamp: map<T, nat>, turn: nat, e: Entry<T>, cur: int)
    requires ListInv(list, now, stamp, turn) && now <= cur && e.expire == cur + TIMEOUT
    requires forall i :: 0 <= i < |list| ==> list[i].id != e.id
    ensures ListInv(list + [e], cur, stamp[e.id := turn], turn + 1)
  {
    var keys := Expiries(list + [e]);
    assert forall i :: 0 <= i < |list| ==> keys[i] == list[i].expire == Expiries(list)[i];
  }

  lemma RemoveListInv<T>(list: seq<Entry<T>>, now: int, stamp: map<T, nat>, turn: nat, k: nat)
    requires ListInv(list, now, stamp, turn) && k < |list|
    ensures ListInv(RemoveAt(list, k), now, stamp, turn)
    ensures forall i :: 0 <= i < |list| - 1 ==> RemoveAt(list, k)[i].id != list[k].id
  {
    hide RemoveAt;
    var r := RemoveAt(list, k);
    assert forall i :: 0 <= i < |r| ==> Expiries(r)[i] == r[i].expire == Expiries(list)[if i < k then i else i + 1];
  }

  lemma DropListInv<T>(list: seq<Entry<T>>, now: int, stamp: map<T, nat>, turn: nat, k: nat, cur: int)
    requires ListInv(list, now, stamp, turn) && k <= |list| && now <= cur
    ensures ListInv(list[k..], cur, stamp, turn)
  {
    var r := list[k..];
    assert forall i :: 0 <= i < |r| ==> Expiries(r)[i] == r[i].expire == Expiries(list)[k + i];
  }

  /** A timer other than the one at `k` stays on the list when that one is removed, and when one is appended. */
  lemma KeepsTimer<T>(s: Loop<T>, t: Loop<T>, fd: nat)
    requires ListInv(s.list, s.now, s.stamp, s.turn) && HasTimer(s, fd)
    requires fd in t.timerOf && t.timerOf[fd] == s.timerOf[fd] && fd in t.active && t.active[fd] == s.active[fd]
    requires exists k :: 0 <= k < |t.list| && t.list[k] == s.list[Index(s.list, s.timerOf[fd])]
    requires forall i, j :: 0 <= i < j < |t.list| ==> t.list[i].id != t.list[j].id
    ensures HasTimer(t, fd)
  {
    var k :| 0 <= k < |t.list| && t.list[k] == s.list[Index(s.list, s.timerOf[fd])];
    IndexIs(t.list, t.timerOf[fd], k);
  }

  lemma IdsDistinct<T>(list: seq<Entry<T>>, now: int, stamp: map<T, nat>, turn: nat)
    requires ListInv(list, now, stamp, turn)
    ensures forall i, j :: 0 <= i < j < |list| ==> list[i].id != list[j].id
  {
  }

  lemma NoneLater<T>(list: seq<Entry<T>>, now: int, stamp: map<T, nat>, turn: nat)
    requires ListInv(list, now, stamp, turn)
    ensures forall i :: 0 <= i < |list| ==> list[i].expire <= now + TIMEOUT
  {
  }

  lemma AcceptKeeps<T>(s: Loop<T>, fd: nat, cur: int, id: T)
    requires Inv(s) && Enabled(s, Accept(fd, cur, id))
    ensures var t := Step(s, Accept(fd, cur, id));
            && Inv(t) && t.list == s.list + [Entry(id, fd, cur + 15)]
            && t.open == s.open + {fd} && t.count == s.count + 1 && s.count < 65535
            && t.timerOf == s.timerOf[fd := id] && t.active == s.active[fd := cur] && t.now == cur
  {
    hide HasTimer, Enter;
    var e := Entry(id, fd, cur + TIMEOUT);
    var t := Step(s, Accept(fd, cur, id));
    EntersAtEnd(s.list, e);
    AppendListInv(s.list, s.now, s.stamp, s.turn, e, cur);
    IdsDistinct(t.list, t.now, t.stamp, t.turn);
    forall f | f in t.open
      ensures HasTimer(t, f)
    {
      NewTimer(t, f, |s.list|);
      if f != fd {
        ListedAt(s, f);
        assert t.list[Index(s.list, s.timerOf[f])] == s.list[Index(s.list, s.timerOf[f])];
        KeepsTimer(s, t, f);
      }
    }
  }

  lemma ListedAt<T>(s: Loop<T>, fd: nat)
    requires HasTimer(s, fd)
    ensures fd in s.timerOf && fd in s.active && Index(s.list, s.timerOf[fd]) < |s.list|
    ensures s.list[Index(s.list, s.timerOf[fd])] == Entry(s.timerOf[fd], fd, s.active[fd] + TIMEOUT)
  {
  }

  lemma NewTimer<T>(t: Loop<T>, fd: nat, k: nat)
    requires k < |t.list| && forall i, j :: 0 <= i < j < |t.list| ==> t.list[i].id != t.list[j].id
    ensures fd in t.timerOf && fd in t.active && t.list[k] == Entry(t.timerOf[fd], fd, t.active[fd] + TIMEOUT) ==>
              HasTimer(t, fd)
  {
    if fd in t.timerOf && t.list[k].id == t.timerOf[fd] {
      IndexIs(t.list, t.timerOf[fd], k);
    }
  }

  /** A read or write that succeeds moves the descriptor's timer to the end. */
  lemma RefreshKeeps<T>(s: Loop<T>, fd: nat, cur: int)
    requires Inv(s) && fd in s.open && s.now <= cur
    ensures HasTimer(s, fd) && Inv(Refresh(s, fd, cur))
    ensures Refresh(s, fd, cur).list ==
              RemoveAt(s.list, Index(s.list, s.timerOf[fd])) + [Entry(s.timerOf[fd], fd, cur + 15)]
    ensures var t := Refresh(s, fd, cur);
            && t.open == s.open && t.count == s.count && t.timerOf == s.timerOf && t.active == s.active[fd := cur]
            && t.now == cur
  {
    hide Enter, RemoveAt, ListInv, Expiries;
    assert HasTimer(s, fd);
    hide HasTimer;
    ListedAt(s, fd);
    var k := Index(s.list, s.timerOf[fd]);
    var (rest, e) := (RemoveAt(s.list, k), Entry(s.timerOf[fd], fd, cur + TIMEOUT));
    var t := Refresh(s, fd, cur);
    RemoveListInv(s.list, s.now, s.stamp, s.turn, k);
    NoneLater(rest, s.now, s.stamp, s.turn);
    EntersAtEnd(rest, e);
    AppendListInv(rest, s.now, s.stamp, s.turn, e, cur);
    IdsDistinct(t.list, t.now, t.stamp, t.turn);
    forall f | f in t.open
      ensures HasTimer(t, f)
    {
      if f == fd {
        NewTimer(t, f, |rest|);
      } else {
        ListedAt(s, f);
        var j := Index(s.list, s.timerOf[f]);
        assert t.list[if j < k then j else j - 1] == s.list[j];
        KeepsTimer(s, t, f);
      }
    }
  }

  lemma DropInv<T>(s: Loop<T>, fd: nat, cur: int)
    requires Inv(s) && fd in s.open && s.now <= cur
    ensures HasTimer(s, fd) && Inv(Drop(s, fd, cur))
  {
    hide RemoveAt, ListInv, Expiries;
    assert HasTimer(s, fd);
    hide HasTimer;
    ListedAt(s, fd);
    var k := Index(s.list, s.timerOf[fd]);
    var t := Drop(s, fd, cur);
    RemoveListInv(s.list, s.now, s.stamp, s.turn, k);
    DropListInv(t.list, s.now, s.stamp, s.turn, 0, cur);
    assert t.list[0..] == t.list;
    IdsDistinct(t.list, t.now, t.stamp, t.turn);
    forall f | f in t.open
      ensures HasTimer(t, f)
    {
      ListedAt(s, f);
      var j := Index(s.list, s.timerOf[f]);
      assert t.list[if j < k then j else j - 1] == s.list[j];
      KeepsTimer(s, t, f);
    }
  }

  /** A read or write that fails closes the connection and deletes its timer, which is then on the list no
      more; every other connection and timer stays as it was. */
  lemma DropKeeps<T>(s: Loop<T>, fd: nat, cur: int)
    requires Inv(s) && fd in s.open && s.now <= cur
    ensures HasTimer(s, fd)
    ensures var (t, k) := (Drop(s, fd, cur), Index(s.list, s.timerOf[fd]));
            && Inv(t) && t.open == s.open - {fd} && t.count == s.count - 1
            && t.list == RemoveAt(s.list, k) && Unlisted(t.list, s.timerOf[fd])
            && t.timerOf == s.timerOf && t.active == s.active && t.now == cur
  {
    DropInv(s, fd, cur);
    RemoveListInv(s.list, s.now, s.stamp, s.turn, Index(s.list, s.timerOf[fd]));
  }

  lemma CloseKeeps<T>(s: Loop<T>, fd: nat)
    requires Inv(s)
    ensures Inv(Close(s, fd)) && Close(s, fd).open == s.open - {fd}
    ensures Close(s, fd) == s.(open := s.open - {fd}, count := |s.open - {fd}|)
  {
    forall f | f in s.open
      ensures HasTimer(Close(s, fd), f)
    {
      assert HasTimer(s, f);
    }
  }

  /** The callbacks close exactly the descriptors of the fired timers. */
  lemma {:induction false} CloseAllIs<T>(s: Loop<T>, fired: seq<Entry<T>>)
    requires s.count == |s.open|
    ensures var t := CloseAll(s, fired);
            && t == s.(open := t.open, count := |t.open|)
            && forall fd :: fd in t.open <==> fd in s.open && forall i :: 0 <= i < |fired| ==> fired[i].fd != fd
    decreases |fired|
  {
    if fired != [] {
      CloseAllIs(Close(s, fired[0].fd), fired[1..]);
      var t := CloseAll(s, fired);
      forall fd
        ensures fd in t.open <==> fd in s.open && forall i :: 0 <= i < |fired| ==> fired[i].fd != fd
      {
        if fd in Close(s, fired[0].fd).open && forall i :: 0 <= i < |fired[1..]| ==> fired[1..][i].fd != fd {
          assert forall i :: 1 <= i < |fired| ==> fired[i] == fired[1..][i - 1];
        }
      }
    }
  }

  lemma NotFired<T>(s: Loop<T>, fd: nat, k: nat)
    requires HasTimer(s, fd) && k <= |s.list| && forall i :: 0 <= i < k ==> s.list[..k][i].fd != fd
    ensures k <= Index(s.list, s.timerOf[fd]) < |s.list|
  {
    assert forall i :: 0 <= i < k ==> s.list[..k][i] == s.list[i];
  }

  lemma RestIsLater(keys: seq<int>, cur: int)
    requires Ascending(keys)
    ensures forall i :: Place(keys, cur) <= i < |keys| ==> keys[i] > cur
  {
  }

  /** The list that tick leaves. */
  lemma TickList<T>(s: Loop<T>, cur: int)
    requires ListInv(s.list, s.now, s.stamp, s.turn) && s.now <= cur
    ensures var k := Place(Expiries(s.list), cur);
            && ListInv(s.list[k..], cur, s.stamp, s.turn)
            && forall i :: 0 <= i < |s.list| - k ==> s.list[k..][i].expire > cur
  {
    var keys := Expiries(s.list);
    var k := Place(keys, cur);
    RestIsLater(keys, cur);
    DropListInv(s.list, s.now, s.stamp, s.turn, k, cur);
    hide Expiries, Place, ListInv;
    forall i | 0 <= i < |s.list| - k
      ensures s.list[k..][i].expire > cur
    {
      assert keys[k + i] == s.list[k + i].expire;
    }
  }

  lemma TickTimer<T>(s: Loop<T>, t: Loop<T>, fd: nat, k: nat)
    requires ListInv(s.list, s.now, s.stamp, s.turn) && HasTimer(s, fd) && k <= |s.list|
    requires forall i :: 0 <= i < k ==> s.list[..k][i].fd != fd
    requires t.list == s.list[k..] && t.timerOf == s.timerOf && t.active == s.active
    requires ListInv(t.list, t.now, t.stamp, t.turn)
    ensures HasTimer(t, fd) && t.active[fd] + TIMEOUT == t.list[Index(t.list, t.timerOf[fd])].expire
  {
    hide ListInv;
    IdsDistinct(t.list, t.now, t.stamp, t.turn);
    ListedAt(s, fd);
    NotFired(s, fd, k);
    var j := Index(s.list, s.timerOf[fd]);
    assert t.list[j - k] == s.list[j];
    KeepsTimer(s, t, fd);
  }

  /** What is left of the list when the timers that have expired are taken off its front. */
  ghost predicate IsRest<T>(list: seq<Entry<T>>, rest: seq<Entry<T>>, cur: int) {
    && |rest| <= |list| && rest == list[|list| - |rest|..]
    && forall i :: 0 <= i < |list| - |rest| ==> list[i].expire <= cur
  }

  /** After a tick every open descriptor has been active within the last 15 seconds, and the timers left on the
      list are those that are still to expire, in their order. */
  lemma TickKeeps<T>(s: Loop<T>, cur: int)
    requires Inv(s) && s.now <= cur
    ensures var t := Step(s, Tick(cur));
            && Inv(t)
            && (forall fd :: fd in t.open ==> fd in t.active && t.active[fd] + TIMEOUT > cur)
            && (forall i :: 0 <= i < |t.list| ==> t.list[i].expire > cur)
            && IsRest(s.list, t.list, cur) && t.timerOf == s.timerOf && t.active == s.active && t.now == cur
  {
    hide Place, CloseAll, HasTimer, ListInv, Expiries;
    var k := Place(Expiries(s.list), cur);
    var t := Step(s, Tick(cur));
    CloseAllIs(s, s.list[..k]);
    TickList(s, cur);
    forall fd | fd in t.open
      ensures HasTimer(t, fd) && fd in t.active && t.active[fd] + TIMEOUT > cur
    {
      ListedAt(s, fd);
      TickTimer(s, t, fd, k);
      ListedAt(t, fd);
    }
  }

  lemma StepKeeps<T>(s: Loop<T>, e: Event<T>)
    requires Inv(s) && Enabled(s, e)
    ensures Inv(Step(s, e))
  {
    hide HasTimer, Refresh, Drop, Close, CloseAll, Enter, ListInv;
    match e
    case Accept(fd, cur, id) => AcceptKeeps(s, fd, cur, id);
    case TooMany(cur) => LaterKeeps(s, cur);
    case HangUp(fd) => CloseKeeps(s, fd);
    case WorkerClose(fd) => CloseKeeps(s, fd);
    case Readable(fd, ok, cur) => RefreshKeeps(s, fd, cur); DropKeeps(s, fd, cur);
    case Writable(fd, ok, cur) => RefreshKeeps(s, fd, cur); DropKeeps(s, fd, cur);
    case Tick(cur) => TickKeeps(s, cur);
  }

  lemma LaterKeeps<T>(s: Loop<T>, cur: int)
    requires Inv(s) && s.now <= cur
    ensures Inv(s.(now := cur))
  {
    forall fd | fd in s.open
      ensures HasTimer(s.(now := cur), fd)
    {
      assert HasTimer(s, fd);
    }
  }

  /** The state after an event; an event that cannot occur in a state changes nothing. */
  ghost function Next<T>(s: Loop<T>, e: Event<T>): (t: Loop<T>)
    ensures Inv(s) ==> Inv(t)
  {
    if Inv(s) && Enabled(s, e) then StepKeeps(s, e); Step(s, e) else s
  }

  /** A run of the loop. */
  ghost function Run<T>(s: Loop<T>, events: seq<Event<T>>): (t: Loop<T>)
    ensures Inv(s) ==> Inv(t)
    decreases |events|
  {
    if events == [] then s else Run(Next(s, events[0]), events[1..])
  }

  lemma {:induction false} RunOneMore<T>(s: Loop<T>, events: seq<Event<T>>, e: Event<T>)
    ensures Run(s, events + [e]) == Next(Run(s, events), e)
    decreases |events|
  {
    hide Next;
    if events == [] {
      assert [e][1..] == [];
      assert Run(Next(s, e), []) == Next(s, e);
      assert events + [e] == [e];
    } else {
      assert (events + [e])[0] == events[0] && (events + [e])[1..] == events[1..] + [e];
      RunOneMore(Next(s, events[0]), events[1..], e);
    }
  }

  ghost function Init<T>(now: int): Loop<T> {
    Loop({}, map[], [], 0, map[], now, map[], 0)
  }

  /** No idle connection survives a tick: after any run of the loop, a tick leaves open only connections
      that were active within the last 15 seconds, each with its own live timer; m_user_count is the number
      of open connections; and the list is in the order of the last refresh. */
  lemma NoIdleConnectionSurvives<T>(start: int, events: seq<Event<T>>, cur: int)
    ensures var s := Run(Init<T>(start), events);
            s.now <= cur ==>
              var t := Next(s, Tick(cur));
              && Inv(t) && t.count == |t.open|
              && (forall fd :: fd in t.open ==> HasTimer(t, fd) && cur < t.active[fd] + TIMEOUT)
              && (forall i, j :: 0 <= i < j < |t.list| ==> t.stamp[t.list[i].id] < t.stamp[t.list[j].id])
  {
    hide Run, Inv, HasTimer, Next;
    StartsWell<T>(start);
    var s := Run(Init<T>(start), events);
    if s.now <= cur {
      AfterTick(s, cur);
    }
  }

  lemma StartsWell<T>(now: int)
    ensures Inv(Init<T>(now))
  {
  }

  lemma AfterTick<T>(s: Loop<T>, cur: int)
    requires Inv(s) && s.now <= cur
    ensures var t := Next(s, Tick(cur));
            && Inv(t) && t.count == |t.open|
            && (forall fd :: fd in t.open ==> HasTimer(t, fd) && cur < t.active[fd] + TIMEOUT)
            && (forall i, j :: 0 <= i < j < |t.list| ==> t.stamp[t.list[i].id] < t.stamp[t.list[j].id])
  {
    hide Step;
    TickKeeps(s, cur);
  }

  // ---- tick may close a connection that is not idle ----

  /** An expired timer on the list belongs to the descriptor of an earlier connection. */
  ghost predicate ExpiredLeftover<T>(s: Loop<T>, fd: nat, cur: int)
    requires fd in s.timerOf
  {
    exists i :: 0 <= i < |s.list| && s.list[i].fd == fd && s.list[i].id != s.timerOf[fd] && s.list[i].expire <= cur
  }

  /** Exactly which connections a tick closes: the idle ones, and those whose descriptor has an expired
      leftover timer.  Without leftovers it closes the idle ones and no other. */
  lemma TickCloses<T>(s: Loop<T>, cur: int, fd: nat)
    requires Inv(s) && s.now <= cur && fd in s.open
    ensures HasTimer(s, fd)
    ensures fd !in Step(s, Tick(cur)).open <==> s.active[fd] + TIMEOUT <= cur || ExpiredLeftover(s, fd, cur)
  {
    hide Place, CloseAll, Expiries;
    var keys := Expiries(s.list);
    var k := Place(keys, cur);
    CloseAllIs(s, s.list[..k]);
    RestIsLater(keys, cur);
    hide ListInv;
    assert HasTimer(s, fd);
    var j := Index(s.list, s.timerOf[fd]);
    assert forall i :: 0 <= i < |s.list| ==> keys[i] == s.list[i].expire && (i < k <==> keys[i] <= cur);
    assert forall i :: 0 <= i < k ==> s.list[..k][i] == s.list[i];
    if s.active[fd] + TIMEOUT <= cur {
      assert s.list[..k][j].fd == fd;
    }
    if ExpiredLeftover(s, fd, cur) {
      var i :| 0 <= i < |s.list| && s.list[i].fd == fd && s.list[i].id != s.timerOf[fd] && s.list[i].expire <= cur;
      assert s.list[..k][i].fd == fd;
    }
    if i :| 0 <= i < k && s.list[..k][i].fd == fd {
      assert s.list[i].id == s.timerOf[fd] ==> i == j by { SameIndex(s, i, j); }
    }
  }

  lemma SameIndex<T>(s: Loop<T>, i: nat, j: nat)
    requires ListInv(s.list, s.now, s.stamp, s.turn) && i < |s.list| && j < |s.list|
    ensures s.list[i].id == s.list[j].id ==> i == j
  {
    hide Expiries;
    IdsDistinct(s.list, s.now, s.stamp, s.turn);
  }

  /** One connection on descriptor 3 with its timer; after it has hung up; and after another one was accepted. */
  ghost function First(): Loop<nat> {
    Loop({3}, map[3 := 0 as nat], [Entry(0 as nat, 3, 15)], 1, map[3 := 0], 0, map[0 as nat := 0], 1)
  }

  ghost function HungUp(): Loop<nat> {
    First().(open := {}, count := 0)
  }

  ghost function Second(): Loop<nat> {
    Loop({3}, map[3 := 1 as nat], [Entry(0 as nat, 3, 15), Entry(1 as nat, 3, 25)], 1, map[3 := 10], 10,
         map[0 as nat := 0, 1 := 1], 2)
  }

  lemma FirstAccepted()
    ensures Next(Init<nat>(0), Accept(3, 0, 0)) == First() && Inv(First())
  {
    StartsWell<nat>(0);
    hide Inv;
    var e := Entry(0 as nat, 3, 15);
    EntersAtEnd([], e);
    assert [] + [e] == [e];
  }

  lemma SecondAccepted()
    requires Inv(First())
    ensures Next(Next(First(), HangUp(3)), Accept(3, 10, 1)) == Second() && Inv(Second())
  {
    hide Inv;
    var (e0, e1) := (Entry(0 as nat, 3, 15), Entry(1 as nat, 3, 25));
    assert Next(First(), HangUp(3)) == HungUp();
    EntersAtEnd([e0], e1);
    assert [e0] + [e1] == [e0, e1];
  }

  lemma SecondTicked()
    requires Inv(Second())
    ensures var t := Next(Second(), Tick(15)); 3 !in t.open && t.active == map[3 := 10] && t.now == 15
  {
    hide Inv;
    var (s, e) := (Second(), Entry(0 as nat, 3, 15));
    PlaceIs(Expiries(s.list), 15, 1);
    assert s.list[..1] == [e] && [e][0].fd == 3;
    CloseAllIs(s, [e]);
  }

  /** A connection that hangs up leaves its timer on the list; when its descriptor is used again, that
      timer closes the new connection 5 seconds after its only activity. */
  lemma LeftoverClosesEarly()
    ensures var events := [Accept(3, 0, 0), HangUp(3), Accept(3, 10, 1), Tick(15)];
            var t := Run(Init<nat>(0), events);
            3 !in t.open && t.active == map[3 := 10] && t.now == 15
  {
    hide Next, First, Second, Inv;
    FirstAccepted();
    SecondAccepted();
    SecondTicked();
    FourEvents(Init<nat>(0), Accept(3, 0, 0), HangUp(3), Accept(3, 10, 1), Tick(15));
  }

  lemma FourEvents<T>(s: Loop<T>, a: Event<T>, b: Event<T>, c: Event<T>, d: Event<T>)
    ensures Run(s, [a, b, c, d]) == Next(Next(Next(Next(s, a), b), c), d)
  {
    hide Next;
    assert [a, b, c, d][1..] == [b, c, d] && [b, c, d][1..] == [c, d] && [c, d][1..] == [d] && [d][1..] == [];
    var s2 := Next(Next(s, a), b);
    assert Run(s, [a, b, c, d]) == Run(Next(s, a), [b, c, d]) == Run(s2, [c, d]);
    assert Run(s2, [c, d]) == Run(Next(s2, c), [d]) == Run(Next(Next(s2, c), d), []);
  }
}
