/**
 Runs of a transition system whose steps are chosen one after the other, by any number of threads in any
 order: a step function applied to a sequence of acts.
 */
module Interleaving {

  function Run<S, A>(step: (S, A) -> S, s: S, acts: seq<A>): S
    decreases |acts|
  {
    if acts == [] then s else Run(step, step(s, acts[0]), acts[1..])
  }

  /** Where one thread stood (`at`) before each of its own acts (`mine`). */
  ghost function Path<S, A, P>(step: (S, A) -> S, mine: A -> bool, at: S -> P, s: S, acts: seq<A>): seq<P>
    decreases |acts|
  {
    if acts == [] then []
    else (if mine(acts[0]) then [at(s)] else []) + Path(step, mine, at, step(s, acts[0]), acts[1..])
  }

  /** What every step keeps holds after every run. */
  lemma {:induction false} RunKeeps<S(!new), A(!new)>(step: (S, A) -> S, inv: S -> bool, s: S, acts: seq<A>)
    requires inv(s) && forall x, a :: inv(x) ==> inv(step(x, a))
    ensures inv(Run(step, s, acts))
    decreases |acts|
  {
    if acts != [] {
      RunKeeps(step, inv, step(s, acts[0]), acts[1..]);
    }
  }

  lemma {:induction false} RunConcat<S, A>(step: (S, A) -> S, s: S, a: seq<A>, b: seq<A>)
    ensures Run(step, s, a + b) == Run(step, Run(step, s, a), b)
    decreases |a|
  {
    if a == [] {
      assert a + b == b;
    } else {
      assert (a + b)[0] == a[0] && (a + b)[1..] == a[1..] + b;
      RunConcat(step, step(s, a[0]), a[1..], b);
    }
  }

  lemma {:induction false} PathConcat<S, A, P>(step: (S, A) -> S, mine: A -> bool, at: S -> P, s: S,
                                               a: seq<A>, b: seq<A>)
    ensures Path(step, mine, at, s, a + b) == Path(step, mine, at, s, a) + Path(step, mine, at, Run(step, s, a), b)
    decreases |a|
  {
    if a == [] {
      assert a + b == b;
    } else {
      var first := if mine(a[0]) then [at(s)] else [];
      assert (a + b)[0] == a[0] && (a + b)[1..] == a[1..] + b;
      PathConcat(step, mine, at, step(s, a[0]), a[1..], b);
      PrefixConcat(first, Path(step, mine, at, step(s, a[0]), a[1..]), Path(step, mine, at, Run(step, s, a), b));
    }
  }

  lemma PrefixConcat<P>(a: seq<P>, b: seq<P>, c: seq<P>)
    ensures a + (b + c) == (a + b) + c
  {
  }

  /** One act more. */
  lemma OneMore<S, A, P>(step: (S, A) -> S, mine: A -> bool, at: S -> P, s: S, acts: seq<A>, a: A)
    ensures Run(step, s, acts + [a]) == step(Run(step, s, acts), a)
    ensures Path(step, mine, at, s, acts + [a]) ==
              Path(step, mine, at, s, acts) + if mine(a) then [at(Run(step, s, acts))] else []
  {
    RunConcat(step, s, acts, [a]);
    PathConcat(step, mine, at, s, acts, [a]);
    var t := Run(step, s, acts);
    assert [a][1..] == [];
    assert Run(step, t, [a]) == Run(step, step(t, a), []) == step(t, a);
    assert Path(step, mine, at, step(t, a), []) == [];
  }

  /** Acts of other threads add nothing to a thread's path. */
  lemma {:induction false} NoPath<S, A, P>(step: (S, A) -> S, mine: A -> bool, at: S -> P, s: S, acts: seq<A>)
    requires forall i :: 0 <= i < |acts| ==> !mine(acts[i])
    ensures Path(step, mine, at, s, acts) == []
    decreases |acts|
  {
    if acts != [] {
      NoPath(step, mine, at, step(s, acts[0]), acts[1..]);
    }
  }

  /** `acts` without those that `mine` picks out. */
  function Others<A>(acts: seq<A>, mine: A -> bool): (r: seq<A>)
    ensures forall i :: 0 <= i < |r| ==> !mine(r[i])
  {
    if acts == [] then [] else (if mine(acts[0]) then [] else [acts[0]]) + Others(acts[1..], mine)
  }

  /** The history `before` has grown to `after`, and `x` has been added to it. */
  ghost predicate Added<T>(before: seq<T>, after: seq<T>, x: T) {
    before <= after && x in after[|before|..]
  }

  lemma AddedOne<T>(a: seq<T>, b: seq<T>, x: T, c: seq<T>)
    requires a <= b && b + [x] <= c
    ensures Added(a, c, x)
  {
    assert c[|a|..][|b| - |a|] == x;
  }

  lemma AddedLater<T>(a: seq<T>, b: seq<T>, c: seq<T>, x: T)
    requires a <= b && Added(b, c, x)
    ensures Added(a, c, x)
  {
    var i :| 0 <= i < |c[|b|..]| && c[|b|..][i] == x;
    assert c[|a|..][|b| - |a| + i] == x;
  }
}
