// Depth-bounded exploration of a graph: a verdict at each spot that depends on
// the spot and on the verdicts of the spots it leads to.
module Exploration {
  datatype Verdict = Accepted | Rejected | Exhausted

  predicate Path<T>(leads: (T, T) -> bool, p: seq<T>)
    decreases |p|
  {
    |p| == 1 || (|p| > 1 && leads(p[0], p[1]) && Path(leads, p[1..]))
  }

  lemma {:induction false} SamePath<T(!new)>(leads: (T, T) -> bool, other: (T, T) -> bool, p: seq<T>)
    requires forall s, t :: leads(s, t) <==> other(s, t)
    ensures Path(leads, p) <==> Path(other, p)
    decreases |p|
  {
    if |p| > 1 {
      SamePath(leads, other, p[1..]);
    }
  }

  // An accepted spot is good and leads to accepted spots only.
  ghost predicate AcceptsSoundly<T(!new)>(leads: (T, T) -> bool, good: T -> bool, verdict: (T, nat) -> Verdict) {
    && (forall s, fuel | verdict(s, fuel) == Accepted :: fuel > 0 && good(s))
    && (forall s, t, fuel: nat | verdict(s, fuel) == Accepted && leads(s, t) ::
      fuel > 0 && verdict(t, fuel - 1) == Accepted)
  }

  // Any other verdict is a bad spot's own, or comes from a spot it leads to.
  ghost predicate Traceable<T(!new)>(leads: (T, T) -> bool, good: T -> bool, verdict: (T, nat) -> Verdict) {
    forall s, fuel: nat :: Traced(leads, good, verdict, s, fuel)
  }

  ghost predicate Traced<T(!new)>(leads: (T, T) -> bool, good: T -> bool, verdict: (T, nat) -> Verdict, s: T,
      fuel: nat)
  {
    fuel > 0 && verdict(s, fuel) != Accepted ==>
      (verdict(s, fuel) == Rejected && !good(s)) ||
        (exists t :: leads(s, t) && verdict(t, fuel - 1) == verdict(s, fuel))
  }

  ghost predicate OutOfFuel<T(!new)>(verdict: (T, nat) -> Verdict) { forall s :: verdict(s, 0) == Exhausted }

  lemma {:induction false} AcceptedPath<T(!new)>(leads: (T, T) -> bool, good: T -> bool, verdict: (T, nat) -> Verdict,
      p: seq<T>, fuel: nat)
    requires AcceptsSoundly(leads, good, verdict)
    requires Path(leads, p) && verdict(p[0], fuel) == Accepted
    ensures |p| <= fuel && good(p[|p| - 1])
    decreases |p|
  {
    if |p| > 1 {
      AcceptedPath(leads, good, verdict, p[1..], fuel - 1);
    }
  }

  lemma {:induction false} TracedPath<T(!new)>(leads: (T, T) -> bool, good: T -> bool, verdict: (T, nat) -> Verdict,
      s: T, fuel: nat)
    returns (p: seq<T>)
    requires Traceable(leads, good, verdict) && OutOfFuel(verdict) && verdict(s, fuel) != Accepted
    ensures Path(leads, p) && p[0] == s
    ensures verdict(s, fuel) == Rejected ==> !good(p[|p| - 1])
    ensures verdict(s, fuel) == Exhausted ==> |p| > fuel
    decreases fuel
  {
    p := [s];
    if fuel > 0 {
      assert Traced(leads, good, verdict, s, fuel);
      if t :| leads(s, t) && verdict(t, fuel - 1) == verdict(s, fuel) {
        var rest := TracedPath(leads, good, verdict, t, fuel - 1);
        p := [s] + rest;
        assert p[1..] == rest;
      }
    }
  }

  ghost predicate AllGood<T(!new)>(leads: (T, T) -> bool, good: T -> bool, start: T) {
    forall p | Path(leads, p) && p[0] == start :: good(p[|p| - 1])
  }

  lemma StartIsGood<T(!new)>(leads: (T, T) -> bool, good: T -> bool, s: T)
    requires AllGood(leads, good, s)
    ensures good(s)
  {
    assert Path(leads, [s]);
  }

  lemma GoodGoesOn<T(!new)>(leads: (T, T) -> bool, good: T -> bool, s: T, t: T)
    requires AllGood(leads, good, s) && leads(s, t)
    ensures AllGood(leads, good, t)
  {
    forall p | Path(leads, p) && p[0] == t
      ensures good(p[|p| - 1])
    {
      assert ([s] + p)[1..] == p;
      assert Path(leads, [s] + p);
    }
  }

  ghost predicate Bounded<T(!new)>(leads: (T, T) -> bool, start: T, n: nat) {
    forall p | Path(leads, p) && p[0] == start :: |p| <= n
  }

  lemma VerdictIsExact<T(!new)>(leads: (T, T) -> bool, good: T -> bool, verdict: (T, nat) -> Verdict, start: T)
    requires AcceptsSoundly(leads, good, verdict) && Traceable(leads, good, verdict) && OutOfFuel(verdict)
    ensures (exists fuel: nat :: verdict(start, fuel) == Accepted) <==>
            (exists n: nat :: Bounded(leads, start, n)) && AllGood(leads, good, start)
    ensures (exists fuel: nat :: verdict(start, fuel) == Rejected) ==> !AllGood(leads, good, start)
  {
    if fuel: nat :| verdict(start, fuel) == Accepted {
      forall p | Path(leads, p) && p[0] == start
        ensures |p| <= fuel && good(p[|p| - 1])
      {
        AcceptedPath(leads, good, verdict, p, fuel);
      }
      assert Bounded(leads, start, fuel);
    }
    if n: nat :| Bounded(leads, start, n) && verdict(start, n) != Accepted {
      var p := TracedPath(leads, good, verdict, start, n);
    }
    if fuel: nat :| verdict(start, fuel) == Rejected {
      var p := TracedPath(leads, good, verdict, start, fuel);
    }
  }

  // Every step from a spot that can be reached goes down a measure.
  ghost predicate Descends<T(!new)>(leads: (T, T) -> bool, reachable: T -> bool, measure: T -> nat) {
    forall s, t | reachable(s) && leads(s, t) :: reachable(t) && measure(t) < measure(s)
  }

  lemma {:induction false} DescentNeverReturns<T(!new)>(leads: (T, T) -> bool, reachable: T -> bool, measure: T -> nat,
      p: seq<T>)
    requires Descends(leads, reachable, measure) && Path(leads, p) && reachable(p[0])
    ensures forall i | 0 < i < |p| :: measure(p[i]) < measure(p[0])
    ensures NoRepeat(p)
    decreases |p|
  {
    if |p| > 1 {
      DescentNeverReturns(leads, reachable, measure, p[1..]);
      assert forall i | 1 <= i < |p| :: p[i] == p[1..][i - 1];
    }
  }

  // ---- Finite graphs ----

  predicate NoRepeat<T(==)>(p: seq<T>) { forall i, j | 0 <= i < j < |p| :: p[i] != p[j] }

  // No path from the start comes back to a spot.
  ghost predicate Acyclic<T(!new)>(leads: (T, T) -> bool, start: T) {
    forall p | Path(leads, p) && p[0] == start :: NoRepeat(p)
  }

  ghost predicate Closed<T(!new)>(leads: (T, T) -> bool, spots: set<T>) {
    forall s, t | s in spots && leads(s, t) :: t in spots
  }

  lemma {:induction false} PathStaysInside<T(!new)>(leads: (T, T) -> bool, spots: set<T>, p: seq<T>)
    requires Closed(leads, spots) && Path(leads, p) && p[0] in spots
    ensures forall i | 0 <= i < |p| :: p[i] in spots
    decreases |p|
  {
    if |p| > 1 {
      PathStaysInside(leads, spots, p[1..]);
      assert forall i | 1 <= i < |p| :: p[i] == p[1..][i - 1];
    }
  }

  // A sequence of different elements of a set is no longer than the set.
  lemma {:induction false} Pigeonhole<T>(p: seq<T>, spots: set<T>)
    requires NoRepeat(p) && forall i | 0 <= i < |p| :: p[i] in spots
    ensures |p| <= |spots|
    decreases |p|
  {
    if p != [] {
      var rest := p[1..];
      assert forall i | 0 <= i < |rest| :: rest[i] == p[i + 1];
      Pigeonhole(rest, spots - {p[0]});
    }
  }

  // In a finite graph paths are bounded exactly when none comes back.
  lemma BoundedIffAcyclic<T(!new)>(leads: (T, T) -> bool, start: T, spots: set<T>)
    requires Closed(leads, spots) && start in spots
    ensures (exists n: nat :: Bounded(leads, start, n)) <==> Acyclic(leads, start)
  {
    if n: nat :| Bounded(leads, start, n) {
      forall p | Path(leads, p) && p[0] == start
        ensures NoRepeat(p)
      {
        forall i, j | 0 <= i < j < |p|
          ensures p[i] != p[j]
        {
          BoundedIsAcyclic(leads, start, n, p, i, j);
        }
      }
    }
    if Acyclic(leads, start) {
      forall p | Path(leads, p) && p[0] == start
        ensures |p| <= |spots|
      {
        PathStaysInside(leads, spots, p);
        Pigeonhole(p, spots);
      }
      assert Bounded(leads, start, |spots|);
    }
  }

  // In a finite graph without a cycle there always comes a verdict; and where
  // all that is reached is good, only then.
  lemma EndsWhenAcyclic<T(!new)>(leads: (T, T) -> bool, good: T -> bool, verdict: (T, nat) -> Verdict, start: T,
      spots: set<T>)
    requires AcceptsSoundly(leads, good, verdict) && Traceable(leads, good, verdict) && OutOfFuel(verdict)
    requires Closed(leads, spots) && start in spots
    ensures Acyclic(leads, start) ==> exists fuel: nat :: verdict(start, fuel) != Exhausted
    ensures AllGood(leads, good, start) ==>
              ((exists fuel: nat :: verdict(start, fuel) != Exhausted) <==> Acyclic(leads, start))
  {
    BoundedIffAcyclic(leads, start, spots);
    VerdictIsExact(leads, good, verdict, start);
    if n: nat :| Bounded(leads, start, n) && verdict(start, n) == Exhausted {
      var p := TracedPath(leads, good, verdict, start, n);
    }
  }

  // ---- Cycles ----

  lemma {:induction false} PathJoin<T>(leads: (T, T) -> bool, p: seq<T>, q: seq<T>)
    requires Path(leads, p) && Path(leads, q) && p[|p| - 1] == q[0]
    ensures Path(leads, p + q[1..]) && (p + q[1..])[|p + q[1..]| - 1] == q[|q| - 1]
    ensures (p + q[1..])[0] == p[0] && |p + q[1..]| >= |q|
    decreases |p|
  {
    if |p| == 1 {
      assert p + q[1..] == q;
    } else {
      PathJoin(leads, p[1..], q);
      assert (p + q[1..])[1..] == p[1..] + q[1..];
    }
  }

  lemma PathSnoc<T>(leads: (T, T) -> bool, p: seq<T>, t: T)
    requires Path(leads, p) && leads(p[|p| - 1], t)
    ensures Path(leads, p + [t])
  {
    var step := [p[|p| - 1], t];
    assert step[1..] == [t];
    PathJoin(leads, p, step);
  }

  // Going round a loop makes paths of any length.
  lemma {:induction false} LoopPath<T>(leads: (T, T) -> bool, loop: seq<T>, n: nat) returns (p: seq<T>)
    requires Path(leads, loop) && |loop| > 1 && loop[0] == loop[|loop| - 1]
    ensures Path(leads, p) && |p| > n && p[0] == loop[0]
    decreases n
  {
    p := loop;
    if n > 0 {
      var rest := LoopPath(leads, loop, n - 1);
      PathJoin(leads, loop, rest);
      p := loop + rest[1..];
    }
  }

  lemma {:induction false} PathSuffix<T>(leads: (T, T) -> bool, p: seq<T>, i: nat)
    requires Path(leads, p) && i < |p|
    ensures Path(leads, p[i..])
    decreases i
  {
    if i > 0 {
      PathSuffix(leads, p[1..], i - 1);
      assert p[1..][i - 1..] == p[i..];
    }
  }

  lemma {:induction false} PathPrefix<T>(leads: (T, T) -> bool, p: seq<T>, j: nat)
    requires Path(leads, p) && j < |p|
    ensures Path(leads, p[..j + 1])
    decreases j
  {
    if j > 0 {
      PathPrefix(leads, p[1..], j - 1);
      assert p[..j + 1][1..] == p[1..][..j];
    }
  }

  // Where paths are bounded, no path comes back to a spot.
  lemma BoundedIsAcyclic<T(!new)>(leads: (T, T) -> bool, start: T, n: nat, p: seq<T>, i: nat, j: nat)
    requires Bounded(leads, start, n) && Path(leads, p) && p[0] == start && i < j < |p|
    ensures p[i] != p[j]
  {
    if p[i] == p[j] {
      PathPrefix(leads, p, j);
      PathSuffix(leads, p[..j + 1], i);
      var loop := p[..j + 1][i..];
      var round := LoopPath(leads, loop, n);
      PathPrefix(leads, p, i);
      PathJoin(leads, p[..i + 1], round);
      assert false;
    }
  }
}
