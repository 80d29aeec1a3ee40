/**
 sort_timer_lst: a doubly linked list of timers in ascending order of expiry, relinked in place.  Every
 operation is proved against a sequence: insert in order behind equals, remove, drop the expired front.
 */
module TimerList {

  // ---- the sequences the list stands for ----

  /** The first position whose key is greater than `e`, or the end. */
  function Place(keys: seq<int>, e: int): (k: nat)
    ensures k <= |keys|
    ensures forall i :: 0 <= i < k ==> keys[i] <= e
    ensures k < |keys| ==> e < keys[k]
  {
    if keys == [] || e < keys[0] then 0 else 1 + Place(keys[1..], e)
  }

  ghost predicate Ascending(keys: seq<int>) {
    forall i, j :: 0 <= i < j < |keys| ==> keys[i] <= keys[j]
  }

  ghost predicate Distinct<T>(s: seq<T>) {
    forall i, j :: 0 <= i < j < |s| ==> s[i] != s[j]
  }

  function InsertAt<T>(s: seq<T>, k: nat, x: T): (r: seq<T>)
    requires k <= |s|
    ensures |r| == |s| + 1 && r[k] == x
    ensures forall i :: 0 <= i < k ==> r[i] == s[i]
    ensures forall i :: k < i < |r| ==> r[i] == s[i - 1]
  {
    s[..k] + [x] + s[k..]
  }

  function RemoveAt<T>(s: seq<T>, k: nat): (r: seq<T>)
    requires k < |s|
    ensures |r| == |s| - 1
    ensures forall i :: 0 <= i < k ==> r[i] == s[i]
    ensures forall i :: k <= i < |r| ==> r[i] == s[i + 1]
  {
    s[..k] + s[k + 1..]
  }

  lemma PlaceIs(keys: seq<int>, e: int, k: nat)
    requires k <= |keys| && (forall i :: 0 <= i < k ==> keys[i] <= e) && (k < |keys| ==> e < keys[k])
    ensures Place(keys, e) == k
  {
  }

  /** Inserting at the place keeps the order, and the new key stands behind its equals. */
  lemma PlaceKeepsOrder(keys: seq<int>, e: int)
    requires Ascending(keys)
    ensures Ascending(InsertAt(keys, Place(keys, e), e))
    ensures forall i :: Place(keys, e) <= i < |keys| ==> keys[i] > e
  {
  }

  class UtilTimer {
    var expire: int
    var fd: nat
    var prev: UtilTimer?
    var next: UtilTimer?

    constructor (fd: nat, expire: int)
      ensures this.fd == fd && this.expire == expire && prev == null && next == null
    {
      this.fd, this.expire := fd, expire;
      prev, next := null, null;
    }
  }

  /** The expiry times of a sequence of timers. */
  ghost function Keys(nodes: seq<UtilTimer>): (keys: seq<int>)
    reads nodes`expire
    ensures |keys| == |nodes| && forall i :: 0 <= i < |nodes| ==> keys[i] == nodes[i].expire
  {
    if nodes == [] then [] else [nodes[0].expire] + Keys(nodes[1..])
  }

  /** Both chains run through `nodes`, in opposite directions, and end in null. */
  ghost predicate Chained(nodes: seq<UtilTimer>)
    reads nodes`prev, nodes`next
  {
    && (nodes != [] ==> nodes[0].prev == null && nodes[|nodes| - 1].next == null)
    && (forall i {:trigger nodes[i].next} :: 0 <= i < |nodes| - 1 ==> nodes[i].next == nodes[i + 1])
    && (forall i {:trigger nodes[i].prev} :: 1 <= i < |nodes| ==> nodes[i].prev == nodes[i - 1])
  }

  lemma KeysInsert(nodes: seq<UtilTimer>, k: nat, x: UtilTimer)
    requires k <= |nodes|
    ensures Keys(InsertAt(nodes, k, x)) == InsertAt(Keys(nodes), k, x.expire)
  {
    hide Keys, InsertAt;
    var (r, keys) := (InsertAt(nodes, k, x), InsertAt(Keys(nodes), k, x.expire));
    forall i | 0 <= i < |r|
      ensures Keys(r)[i] == keys[i]
    {
      assert Keys(r)[i] == r[i].expire;
    }
  }

  lemma KeysRemove(nodes: seq<UtilTimer>, k: nat)
    requires k < |nodes|
    ensures Keys(RemoveAt(nodes, k)) == RemoveAt(Keys(nodes), k)
  {
    hide Keys, RemoveAt;
    var (r, keys) := (RemoveAt(nodes, k), RemoveAt(Keys(nodes), k));
    forall i | 0 <= i < |r|
      ensures Keys(r)[i] == keys[i]
    {
      assert Keys(r)[i] == r[i].expire;
    }
  }

  lemma DistinctInsert<T>(s: seq<T>, k: nat, x: T)
    requires Distinct(s) && x !in s && k <= |s|
    ensures Distinct(InsertAt(s, k, x))
  {
  }

  lemma DistinctRemove<T>(s: seq<T>, k: nat)
    requires Distinct(s) && k < |s|
    ensures Distinct(RemoveAt(s, k)) && s[k] !in RemoveAt(s, k)
  {
  }

  class SortTimerList {
    var head: UtilTimer?
    var tail: UtilTimer?
    ghost var nodes: seq<UtilTimer>

    /** The pointers agree with `nodes`; the tail of an empty list is not looked at. */
    ghost predicate Linked()
      reads this, nodes`prev, nodes`next
    {
      && Distinct(nodes) && Chained(nodes)
      && (nodes == [] ==> head == null)
      && (nodes != [] ==> head == nodes[0] && tail == nodes[|nodes| - 1])
    }

    ghost predicate Valid()
      reads this, nodes
    {
      Linked() && Ascending(Keys(nodes))
    }

    constructor ()
      ensures Valid() && nodes == []
    {
      head, tail := null, null;
      nodes := [];
    }

    /** The relinking that puts `timer` between the node at `i` and its successor. */
    method LinkBehind(timer: UtilTimer, prev: UtilTimer, tmp: UtilTimer?, ghost i: nat)
      requires Linked() && timer !in nodes && i < |nodes| && prev == nodes[i]
      requires tmp == if i + 1 < |nodes| then nodes[i + 1] else null
      modifies this`tail, this`nodes, nodes`prev, nodes`next, timer`prev, timer`next
      ensures Linked() && nodes == InsertAt(old(nodes), i + 1, timer)
    {
      hide InsertAt;
      DistinctInsert(nodes, i + 1, timer);
      prev.next := timer;
      timer.prev := prev;
      timer.next := tmp;
      if tmp != null {
        tmp.prev := timer;
      } else {
        tail := timer;
      }
      ghost var was := nodes;
      nodes := InsertAt(nodes, i + 1, timer);
      assert Chained(nodes) by {
        hide Distinct;
        forall j | 0 <= j < |nodes| - 1
          ensures nodes[j].next == nodes[j + 1]
        {
          if j < i {
            Differ(was, j, i);
          } else if j > i + 1 {
            Differ(was, i, j - 1);
          }
        }
        forall j | 1 <= j < |nodes|
          ensures nodes[j].prev == nodes[j - 1]
        {
          if j <= i {
            assert i + 1 < |was| ==> was[j] != was[i + 1] by { Differ2(was, j, i + 1); }
          } else if j > i + 2 {
            Differ(was, i + 1, j - 1);
          }
        }
        assert i + 1 < |was| ==> was[0] != was[i + 1] by { Differ2(was, 0, i + 1); }
        assert i + 1 < |was| ==> was[|was| - 1] != was[i] by { Differ2(was, i, |was| - 1); }
      }
    }

    /** The relinking that makes `timer` the first node. */
    method LinkFirst(timer: UtilTimer)
      requires Linked() && timer !in nodes && nodes != [] && timer.prev == null
      modifies this`head, this`nodes, nodes`prev, timer`next
      ensures Linked() && nodes == InsertAt(old(nodes), 0, timer)
      ensures Keys(nodes) == InsertAt(old(Keys(nodes)), 0, timer.expire)
    {
      hide Keys, InsertAt;
      KeysInsert(nodes, 0, timer);
      DistinctInsert(nodes, 0, timer);
      timer.next := head;
      head.prev := timer;
      head := timer;
      ghost var was := nodes;
      nodes := InsertAt(nodes, 0, timer);
      assert forall j :: 1 <= j < |nodes| ==> nodes[j] == was[j - 1];
    }

    lemma NextIs(i: nat)
      requires Linked() && i < |nodes|
      ensures nodes[i].next == if i + 1 < |nodes| then nodes[i + 1] else null
    {
    }

    lemma MemberOnce(k: nat)
      requires Linked() && k < |nodes|
      ensures nodes[k] !in RemoveAt(nodes, k)
    {
      DistinctRemove(nodes, k);
    }

    /** The walk of the private overload from `lstHead`, the node at `k`, to the first later timer. */
    method Walk(timer: UtilTimer, lstHead: UtilTimer, ghost k: nat)
      returns (prev: UtilTimer, tmp: UtilTimer?, ghost i: nat)
      requires Valid() && k < |nodes| && lstHead == nodes[k] && lstHead.expire <= timer.expire
      ensures prev in nodes && prev.expire <= timer.expire
      ensures tmp != null ==> timer.expire < tmp.expire
      ensures i < |nodes| && prev == nodes[i] && tmp == (if i + 1 < |nodes| then nodes[i + 1] else null)
      ensures i + 1 == Place(Keys(nodes), timer.expire)
    {
      hide Keys, Linked, Place;
      prev := lstHead;
      tmp := prev.next;
      i := k;
      NextIs(i);
      while tmp != null
        invariant k <= i < |nodes| && prev == nodes[i] && prev.expire <= timer.expire
        invariant tmp == if i + 1 < |nodes| then nodes[i + 1] else null
        decreases |nodes| - i
      {
        if timer.expire < tmp.expire {
          break;
        }
        prev := tmp;
        tmp := tmp.next;
        i := i + 1;
        NextIs(i);
      }
      ghost var keys := Keys(nodes);
      assert forall j :: 0 <= j <= i ==> keys[j] <= keys[i];
      PlaceIs(keys, timer.expire, i + 1);
    }

    /** The private overload of add_timer. */
    method AddBehind(timer: UtilTimer, lstHead: UtilTimer, ghost k: nat)
      requires Valid() && timer !in nodes && k < |nodes| && lstHead == nodes[k] && lstHead.expire <= timer.expire
      modifies this`tail, this`nodes, nodes`prev, nodes`next, timer`prev, timer`next
      ensures Valid() && nodes == InsertAt(old(nodes), Place(old(Keys(nodes)), timer.expire), timer)
    {
      hide Keys, InsertAt, Linked, Place;
      ghost var keys := Keys(nodes);
      PlaceKeepsOrder(keys, timer.expire);
      var prev, tmp, i := Walk(timer, lstHead, k);
      KeysInsert(nodes, i + 1, timer);
      ghost var result := InsertAt(nodes, i + 1, timer);
      assert Ascending(Keys(result));
      LinkBehind(timer, prev, tmp, i);
      hide Ascending, InsertAt;
      assert nodes == result;
    }

    /** add_timer of a new timer. */
    method AddTimer(timer: UtilTimer)
      requires Valid() && timer !in nodes && timer.prev == null && timer.next == null
      modifies this, nodes`prev, nodes`next, timer`prev, timer`next
      ensures Valid() && nodes == InsertAt(old(nodes), Place(old(Keys(nodes)), timer.expire), timer)
    {
      hide Keys, InsertAt, Place;
      ghost var keys := Keys(nodes);
      PlaceKeepsOrder(keys, timer.expire);
      if head == null {
        head, tail := timer, timer;
        nodes := [timer];
        assert nodes == InsertAt(old(nodes), 0, timer);
        return;
      }
      if timer.expire < head.expire {
        PlaceIs(keys, timer.expire, 0);
        LinkFirst(timer);
        return;
      }
      AddBehind(timer, head, 0);
    }

    /** Unlinks the first of several nodes. */
    method UnlinkFirst()
      requires Linked() && |nodes| >= 2
      modifies this`head, this`nodes, nodes`prev
      ensures Linked() && nodes == RemoveAt(old(nodes), 0) && Keys(nodes) == RemoveAt(old(Keys(nodes)), 0)
    {
      hide Keys, RemoveAt;
      KeysRemove(nodes, 0);
      DistinctRemove(nodes, 0);
      head := head.next;
      head.prev := null;
      ghost var was := nodes;
      nodes := RemoveAt(nodes, 0);
      assert forall j :: 0 <= j < |nodes| ==> nodes[j] == was[j + 1];
    }

    /** Unlinks a node that has neighbours on both sides. */
    method UnlinkInner(timer: UtilTimer, ghost k: nat)
      requires Linked() && 0 < k < |nodes| - 1 && timer == nodes[k]
      modifies this`nodes, nodes`prev, nodes`next
      ensures Linked() && nodes == RemoveAt(old(nodes), k) && Keys(nodes) == RemoveAt(old(Keys(nodes)), k)
      ensures timer.next == old(timer.next)
    {
      hide Keys, RemoveAt;
      KeysRemove(nodes, k);
      DistinctRemove(nodes, k);
      timer.prev.next := timer.next;
      timer.next.prev := timer.prev;
      ghost var was := nodes;
      nodes := RemoveAt(nodes, k);
      forall j | 0 <= j < |nodes| - 1
        ensures nodes[j].next == nodes[j + 1]
      {
        assert j >= k ==> nodes[j] == was[j + 1] && nodes[j + 1] == was[j + 2];
      }
      forall j | 1 <= j < |nodes|
        ensures nodes[j].prev == nodes[j - 1]
      {
        assert j > k ==> nodes[j] == was[j + 1] && nodes[j - 1] == was[j];
      }
    }

    /** Unlinks the last of several nodes. */
    method UnlinkLast()
      requires Linked() && |nodes| >= 2
      modifies this`tail, this`nodes, nodes`next
      ensures Linked() && nodes == RemoveAt(old(nodes), |old(nodes)| - 1)
      ensures Keys(nodes) == RemoveAt(old(Keys(nodes)), |old(nodes)| - 1)
    {
      hide Keys, RemoveAt;
      KeysRemove(nodes, |nodes| - 1);
      DistinctRemove(nodes, |nodes| - 1);
      tail := tail.prev;
      tail.next := null;
      nodes := RemoveAt(nodes, |nodes| - 1);
    }

    /** del_timer of a list member, at position `k`. */
    method DelTimer(timer: UtilTimer, ghost k: nat)
      requires Valid() && k < |nodes| && nodes[k] == timer
      modifies this, nodes`prev, nodes`next
      ensures Valid() && nodes == RemoveAt(old(nodes), k)
    {
      hide Keys, Chained, RemoveAt;
      RemoveKeepsOrder(Keys(nodes), k);
      if timer == head && timer == tail {
        head, tail := null, null;
        Alone(nodes, k);
        nodes := [];
        NoChain();
        return;
      }
      if timer == head {
        UnlinkFirst();
        return;
      }
      if timer == tail {
        UnlinkLast();
        return;
      }
      UnlinkInner(timer, k);
    }

    /** adjust_timer of the member at `k` after its expiry has grown: the list is what removing the timer
        and inserting it in order gives. */
    method AdjustTimer(timer: UtilTimer, ghost k: nat)
      requires Linked() && k < |nodes| && nodes[k] == timer
      requires Ascending(RemoveAt(Keys(nodes), k)) && (k > 0 ==> nodes[k - 1].expire <= timer.expire)
      modifies this, nodes`prev, nodes`next
      ensures Valid()
      ensures var rest := RemoveAt(old(nodes), k);
              nodes == InsertAt(rest, Place(RemoveAt(old(Keys(nodes)), k), timer.expire), timer)
    {
      hide Keys, Place, InsertAt, RemoveAt, Chained;
      ghost var keys := RemoveAt(Keys(nodes), k);
      DistinctRemove(nodes, k);
      NextIs(k);
      var tmp := timer.next;
      if tmp == null || timer.expire < tmp.expire {
        StaysInPlace(Keys(nodes), k);
        Reinsert(nodes, k);
        Reinsert(Keys(nodes), k);
        PlaceKeepsOrder(keys, timer.expire);
        return;
      }
      if timer == head {
        UnlinkFirst();
        timer.next := null;
        AddBehind(timer, head, 0);
      } else {
        UnlinkInner(timer, k);
        AddBehind(timer, timer.next, k);
      }
    }

    /** What main.cpp does when a connection has been active: the expiry grows and adjust_timer moves the timer. */
    method Postpone(timer: UtilTimer, expire: int, ghost k: nat)
      requires Valid() && k < |nodes| && nodes[k] == timer && timer.expire <= expire
      modifies this, nodes`prev, nodes`next, timer`expire
      ensures Valid() && timer.expire == expire
      ensures nodes == InsertAt(RemoveAt(old(nodes), k), Place(RemoveAt(old(Keys(nodes)), k), expire), timer)
    {
      hide Keys, Place, InsertAt, RemoveAt, Linked;
      ghost var rest := RemoveAt(nodes, k);
      MemberOnce(k);
      KeysRemove(nodes, k);
      RemoveKeepsOrder(Keys(nodes), k);
      assert k > 0 ==> Keys(nodes)[k - 1] <= Keys(nodes)[k];
      ghost var keys := Keys(rest);
      timer.expire := expire;
      assert Keys(rest) == keys;
      KeysRemove(nodes, k);
      AdjustTimer(timer, k);
    }

    /** One round of tick: the first node leaves the list. */
    method PopHead() returns (tmp: UtilTimer)
      requires Valid() && nodes != []
      modifies this`head, this`nodes, nodes`prev
      ensures Valid() && tmp == old(nodes)[0] && nodes == old(nodes)[1..]
    {
      hide Keys;
      DropFirst(nodes);
      tmp := head;
      head := tmp.next;
      if head != null {
        head.prev := null;
      }
      nodes := nodes[1..];
    }

    /** tick() at time `cur`: the callback runs on each expired timer, first to last; `fired` lists them. */
    method Tick(cur: int) returns (fired: seq<UtilTimer>)
      requires Valid()
      modifies this`head, this`nodes, nodes`prev
      ensures Valid()
      ensures var k := Place(old(Keys(nodes)), cur); fired == old(nodes)[..k] && nodes == old(nodes)[k..]
    {
      hide Keys, Place, Linked;
      fired := [];
      ghost var (was, keys) := (nodes, Keys(nodes));
      HeadIs();
      var tmp := head;
      ghost var i := 0;
      while tmp != null
        invariant Valid() && tmp == (if nodes == [] then null else nodes[0])
        invariant i <= |was| && fired == was[..i] && nodes == was[i..]
        invariant forall j :: 0 <= j < i ==> keys[j] <= cur
        decreases |was| - i
      {
        if cur < tmp.expire {
          break;
        }
        var popped := PopHead();
        fired := fired + [popped];
        HeadIs();
        tmp := head;
        i := i + 1;
      }
      PlaceIs(keys, cur, i);
    }

    lemma HeadIs()
      requires Linked()
      ensures head == if nodes == [] then null else nodes[0]
    {
    }
  }

  lemma DropFirst(nodes: seq<UtilTimer>)
    requires nodes != [] && Distinct(nodes) && Ascending(Keys(nodes))
    ensures Distinct(nodes[1..]) && Ascending(Keys(nodes[1..])) && nodes[0] !in nodes[1..]
  {
    hide Keys;
    assert Keys(nodes[1..]) == Keys(nodes)[1..];
  }

  lemma Differ<T>(s: seq<T>, i: nat, j: nat)
    requires Distinct(s) && i < j < |s|
    ensures s[i] != s[j]
  {
  }

  lemma Differ2<T>(s: seq<T>, i: nat, j: nat)
    requires Distinct(s)
    ensures i < j < |s| ==> s[i] != s[j]
  {
  }

  lemma NoChain()
    ensures Chained([])
  {
  }

  lemma Alone<T>(s: seq<T>, k: nat)
    requires k < |s| && Distinct(s) && s[0] == s[|s| - 1]
    ensures RemoveAt(s, k) == []
  {
  }

  lemma Reinsert<T>(s: seq<T>, k: nat)
    requires k < |s|
    ensures InsertAt(RemoveAt(s, k), k, s[k]) == s
  {
  }

  lemma RemoveKeepsOrder(keys: seq<int>, k: nat)
    requires Ascending(keys) && k < |keys|
    ensures Ascending(RemoveAt(keys, k))
  {
  }

  /** A key that is at least its predecessor and below its successor is in its place. */
  lemma StaysInPlace(keys: seq<int>, k: nat)
    requires k < |keys| && Ascending(RemoveAt(keys, k))
    requires (k > 0 ==> keys[k - 1] <= keys[k]) && (k + 1 < |keys| ==> keys[k] < keys[k + 1])
    ensures Place(RemoveAt(keys, k), keys[k]) == k
  {
    var rest := RemoveAt(keys, k);
    assert forall i :: 0 <= i < k ==> rest[i] <= rest[k - 1];
    PlaceIs(rest, keys[k], k);
  }
}
