/** Counting the threads whose program counter has a property, for any number of threads. */
module Counting {

  ghost function Those<T, P>(pc: map<T, P>, p: P -> bool): set<T> {
    set t | t in pc && p(pc[t])
  }

  ghost function Count<T, P>(pc: map<T, P>, p: P -> bool): nat {
    |Those(pc, p)|
  }

  ghost function One(b: bool): nat {
    if b then 1 else 0
  }

  lemma CountSplit<T, P>(pc: map<T, P>, t: T, p: P -> bool)
    requires t in pc
    ensures Count(pc, p) == |Those(pc, p) - {t}| + One(p(pc[t]))
  {
    if p(pc[t]) {
      assert Those(pc, p) == (Those(pc, p) - {t}) + {t};
    } else {
      assert Those(pc, p) == Those(pc, p) - {t};
    }
  }

  /** One thread's move changes each count by at most one. */
  lemma CountMove<T, P>(pc: map<T, P>, t: T, x: P, p: P -> bool)
    requires t in pc
    ensures Count(pc[t := x], p) + One(p(pc[t])) == Count(pc, p) + One(p(x))
  {
    CountSplit(pc, t, p);
    CountSplit(pc[t := x], t, p);
    hide Count;
    OthersStay(pc, t, x, p);
  }

  lemma OthersStay<T, P>(pc: map<T, P>, t: T, x: P, p: P -> bool)
    requires t in pc
    ensures Those(pc[t := x], p) - {t} == Those(pc, p) - {t}
  {
    var (a, b) := (Those(pc[t := x], p) - {t}, Those(pc, p) - {t});
    assert forall u :: u in a ==> u in pc && pc[t := x][u] == pc[u] && u in b;
    assert forall u :: u in b ==> u in pc && pc[t := x][u] == pc[u] && u in a;
  }

  lemma CountsOne<T, P>(pc: map<T, P>, t: T, p: P -> bool)
    requires t in pc && p(pc[t])
    ensures Count(pc, p) >= 1
  {
    assert t in Those(pc, p);
  }

  lemma CountsNone<T, P>(pc: map<T, P>, p: P -> bool)
    requires forall t :: t in pc ==> !p(pc[t])
    ensures Count(pc, p) == 0
  {
    assert Those(pc, p) == {};
  }

  lemma SomeThread<T, P>(pc: map<T, P>, p: P -> bool) returns (t: T)
    requires Count(pc, p) >= 1
    ensures t in pc && p(pc[t])
  {
    t :| t in Those(pc, p);
  }

  /** A thread without the property is not counted. */
  lemma CountsFew<T, P>(pc: map<T, P>, t: T, p: P -> bool)
    requires t in pc && !p(pc[t])
    ensures Count(pc, p) < |pc.Keys|
  {
    assert Those(pc, p) < pc.Keys;
    ProperSubset(Those(pc, p), pc.Keys, t);
  }

  lemma ProperSubset<T>(a: set<T>, b: set<T>, t: T)
    requires a <= b && t in b && t !in a
    ensures |a| < |b|
  {
    assert b == a + (b - a);
    assert t in b - a;
  }

  lemma CountsTwo<T, P>(pc: map<T, P>, t: T, u: T, p: P -> bool)
    requires t in pc && u in pc && p(pc[t]) && p(pc[u]) && t != u
    ensures Count(pc, p) >= 2
  {
    var rest := Those(pc, p) - {t, u};
    assert Those(pc, p) == rest + {t} + {u};
  }
}
