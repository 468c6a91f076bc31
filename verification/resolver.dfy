/**
 `build_target` (builder.py:59-85): resolve a target by first resolving every
 missing dependency, left to right, then running the target's action when
 the target is missing or some dependency is strictly newer.

 The source has no cycle detection: a dependency is resolved only when its
 file is missing, so when the recursion re-enters a target through
 dependencies whose files are missing, it recurses until Python's stack
 overflows. To make the recursion total, `Build` takes a
 `fuel` bound on the nesting depth and returns `OutOfFuel` when it runs out.
 The bound is a modelling device, not behaviour of the source:
 `BuildFuelMonotone` shows that any answer obtained with some fuel is the
 answer obtained with every larger fuel.
 */
module Resolver {
  import opened Host
  import opened Actions
  import opened Rules

  /** Every registered action can be invoked without `cmd` raising on its command line. */
  predicate WellFormed(rules: map<string, Rule>) {
    forall t :: t in rules ==> Invocable(rules[t].action)
  }

  /** The answer of `build_target`, with the world after it, or exhaustion of the modelling fuel. */
  datatype Outcome = Finished(ok: bool, world: World) | OutOfFuel

  /**
   The state of the dependency loop (builder.py:67-75) once it ends:
   `Scanned` when every dependency was examined, with the rebuild flag and
   the time read for each dependency (after resolving it, when it was
   missing); `Aborted` when a missing dependency failed to resolve.
   */
  datatype Scan = Scanned(rebuild: bool, times: seq<int>, world: World) | Aborted(world: World) | ScanOutOfFuel

  /** Put the time of the dependency just examined in front of the rest of the scan. */
  function Prepend(m: int, s: Scan): Scan {
    if s.Scanned? then Scanned(s.rebuild, [m] + s.times, s.world) else s
  }

  predicate Newer(times: seq<int>, t: int) {
    exists i :: 0 <= i < |times| && times[i] > t
  }

  lemma NewerPrepend(m: int, times: seq<int>, t: int)
    ensures Newer([m] + times, t) <==> m > t || Newer(times, t)
  {
    var s := [m] + times;
    assert s[0] == m;
    if m > t {
      assert s[0] > t;
    }
    if Newer(times, t) {
      var i :| 0 <= i < |times| && times[i] > t;
      assert s[i + 1] == times[i];
    }
    if Newer(s, t) {
      var i :| 0 <= i < |s| && s[i] > t;
      assert s[0] == m;
      if i > 0 {
        assert times[i - 1] == s[i];
      }
    }
  }

  /** `build_target(target)` (builder.py:59-85). */
  function Build(rules: map<string, Rule>, shell: Shell, target: string, w: World, fuel: nat): (r: Outcome)
    requires WellFormed(rules)
    ensures fuel > 0 && target !in rules ==> r == Finished(false, w)
    ensures r.Finished? ==> Extends(w, r.world)
    decreases fuel, 0, 0
  {
    if fuel == 0 then OutOfFuel
    else if target !in rules then Finished(false, w)
    else
      var rul := rules[target];
      var t := MTime(w.fs, target);
      match ScanReqs(rules, shell, t, rul.reqs, t == Missing, w, fuel - 1)
      case ScanOutOfFuel => OutOfFuel
      case Aborted(w1) => Finished(false, w1)
      case Scanned(rebuild, _, w1) =>
        if rebuild then
          var s := Invoke(rul.action, target, shell, w1);
          Finished(s.ok, s.world)
        else Finished(true, w1)
  }

  /**
   The first half of the loop body (builder.py:68-73): read the dependency's
   time and, when it is missing, resolve it and read the time again. `Go`
   carries the time the rebuild decision sees; `Stop` ends the scan.
   */
  datatype Head = Go(time: int, world: World) | Stop(scan: Scan)

  function Examine(rules: map<string, Rule>, shell: Shell, req: string, w: World, fuel: nat): (h: Head)
    requires WellFormed(rules)
    ensures h.Go? ==> Extends(w, h.world)
    ensures h.Stop? ==> h.scan.Aborted? || h.scan.ScanOutOfFuel?
    ensures h.Stop? && h.scan.Aborted? ==> Extends(w, h.scan.world)
    ensures MTime(w.fs, req) != Missing ==> h == Go(MTime(w.fs, req), w)
    // a missing dependency is resolved first: the loop goes on exactly when that succeeds,
    // with the world it left and the dependency's time read again in it
    ensures MTime(w.fs, req) == Missing ==>
      (h.Go? <==> Build(rules, shell, req, w, fuel).Finished? && Build(rules, shell, req, w, fuel).ok)
    ensures MTime(w.fs, req) == Missing && h.Go? ==>
      h.world == Build(rules, shell, req, w, fuel).world && h.time == MTime(h.world.fs, req)
    ensures h.Stop? && h.scan.Aborted? ==> Build(rules, shell, req, w, fuel) == Finished(false, h.scan.world)
    ensures h.Stop? && h.scan.ScanOutOfFuel? ==> Build(rules, shell, req, w, fuel).OutOfFuel?
    decreases fuel, 0, 1
  {
    var m := MTime(w.fs, req);
    if m != Missing then Go(m, w)
    else
      match Build(rules, shell, req, w, fuel)
      case OutOfFuel => Stop(ScanOutOfFuel)
      case Finished(ok, w1) => if ok then Go(MTime(w1.fs, req), w1) else Stop(Aborted(w1))
  }

  /**
   The loop over the dependencies (builder.py:67-75) for a target whose time
   is `t`, starting from the flag `rebuild`.
   */
  function ScanReqs(rules: map<string, Rule>, shell: Shell, t: int, reqs: seq<string>, rebuild: bool, w: World, fuel: nat): (r: Scan)
    requires WellFormed(rules)
    ensures r.Scanned? ==> |r.times| == |reqs|
    ensures r.Scanned? ==> (r.rebuild <==> rebuild || Newer(r.times, t))
    ensures r.Scanned? || r.Aborted? ==> Extends(w, r.world)
    decreases fuel, |reqs|, 2
  {
    if reqs == [] then Scanned(rebuild, [], w)
    else
      match Examine(rules, shell, reqs[0], w, fuel)
      case Stop(s) => s
      case Go(m, w1) =>
        var rest := ScanReqs(rules, shell, t, reqs[1..], rebuild || m > t, w1, fuel);
        NewerPrepend(m, if rest.Scanned? then rest.times else [], t);
        Prepend(m, rest)
  }

  /** Continue a scan that ended after a prefix of the dependencies with the rest of them. */
  function Then(rules: map<string, Rule>, shell: Shell, t: int, s: Scan, more: seq<string>, fuel: nat): Scan
    requires WellFormed(rules)
  {
    match s
    case Scanned(rb, ts, w1) =>
      var s2 := ScanReqs(rules, shell, t, more, rb, w1, fuel);
      if s2.Scanned? then Scanned(s2.rebuild, ts + s2.times, s2.world) else s2
    case _ => s
  }

  /**
   Dependencies are examined strictly left to right, and once one fails to
   resolve (or fuel runs out) no later dependency is examined.
   */
  lemma {:induction false} ScanSplit(rules: map<string, Rule>, shell: Shell, t: int, a: seq<string>, b: seq<string>, rebuild: bool, w: World, fuel: nat)
    requires WellFormed(rules)
    ensures ScanReqs(rules, shell, t, a + b, rebuild, w, fuel) == Then(rules, shell, t, ScanReqs(rules, shell, t, a, rebuild, w, fuel), b, fuel)
    decreases |a|
  {
    if a == [] {
      assert a + b == b;
    } else {
      assert (a + b)[0] == a[0];
      assert (a + b)[1..] == a[1..] + b;
      ScanCons(rules, shell, t, a, rebuild, w, fuel);
      ScanCons(rules, shell, t, a + b, rebuild, w, fuel);
      var h := Examine(rules, shell, a[0], w, fuel);
      if h.Go? {
        var rb := rebuild || h.time > t;
        ScanSplit(rules, shell, t, a[1..], b, rb, h.world, fuel);
        PrependThen(rules, shell, t, h.time, ScanReqs(rules, shell, t, a[1..], rb, h.world, fuel), b, fuel);
      }
    }
  }

  lemma PrependThen(rules: map<string, Rule>, shell: Shell, t: int, m: int, s: Scan, b: seq<string>, fuel: nat)
    requires WellFormed(rules)
    ensures Prepend(m, Then(rules, shell, t, s, b, fuel)) == Then(rules, shell, t, Prepend(m, s), b, fuel)
  {
    if s.Scanned? {
      var s2 := ScanReqs(rules, shell, t, b, s.rebuild, s.world, fuel);
      if s2.Scanned? {
        assert [m] + (s.times + s2.times) == ([m] + s.times) + s2.times;
      }
    }
  }

  /** One step of the dependency loop. */
  lemma ScanCons(rules: map<string, Rule>, shell: Shell, t: int, reqs: seq<string>, rebuild: bool, w: World, fuel: nat)
    requires WellFormed(rules) && reqs != []
    ensures var h := Examine(rules, shell, reqs[0], w, fuel);
      ScanReqs(rules, shell, t, reqs, rebuild, w, fuel)
      == if h.Stop? then h.scan else Prepend(h.time, ScanReqs(rules, shell, t, reqs[1..], rebuild || h.time > t, h.world, fuel))
  {
  }

  /** Every dependency exists. */
  predicate AllPresent(fs: map<string, int>, reqs: seq<string>) {
    forall i :: 0 <= i < |reqs| ==> MTime(fs, reqs[i]) != Missing
  }

  /** The times of the dependencies, in order. */
  function Times(fs: map<string, int>, reqs: seq<string>): (ts: seq<int>)
    ensures |ts| == |reqs|
    ensures forall i :: 0 <= i < |reqs| ==> ts[i] == MTime(fs, reqs[i])
  {
    if reqs == [] then [] else [MTime(fs, reqs[0])] + Times(fs, reqs[1..])
  }

  /** When every dependency exists, the scan resolves nothing: it reads their times and leaves the world as it was. */
  lemma {:induction false} ScanAllPresent(rules: map<string, Rule>, shell: Shell, t: int, reqs: seq<string>, rebuild: bool, w: World, fuel: nat)
    requires WellFormed(rules)
    requires AllPresent(w.fs, reqs)
    ensures ScanReqs(rules, shell, t, reqs, rebuild, w, fuel) == Scanned(rebuild || Newer(Times(w.fs, reqs), t), Times(w.fs, reqs), w)
  {
    if reqs != [] {
      var m := MTime(w.fs, reqs[0]);
      assert m != Missing;
      ScanAllPresent(rules, shell, t, reqs[1..], rebuild || m > t, w, fuel);
    }
  }

  /**
   The rebuild decision (builder.py:66, 74-82): the action runs exactly when
   the target is missing or some dependency's final time is strictly newer
   than the target's; otherwise the answer is True with nothing run.
   */
  lemma BuildDecision(rules: map<string, Rule>, shell: Shell, target: string, w: World, fuel: nat, times: seq<int>, rb: bool, w1: World)
    requires WellFormed(rules) && fuel > 0 && target in rules
    requires ScanReqs(rules, shell, MTime(w.fs, target), rules[target].reqs, MTime(w.fs, target) == Missing, w, fuel - 1) == Scanned(rb, times, w1)
    ensures |times| == |rules[target].reqs|
    ensures rb <==> MTime(w.fs, target) == Missing || Newer(times, MTime(w.fs, target))
    ensures rb ==> Build(rules, shell, target, w, fuel) == Finished(Invoke(rules[target].action, target, shell, w1).ok, Invoke(rules[target].action, target, shell, w1).world)
    ensures !rb ==> Build(rules, shell, target, w, fuel) == Finished(true, w1)
  {
  }

  /** A target that exists and is at least as new as every (existing) dependency is left alone: True, nothing run. */
  lemma UpToDate(rules: map<string, Rule>, shell: Shell, target: string, w: World, fuel: nat)
    requires WellFormed(rules) && fuel > 0 && target in rules
    requires MTime(w.fs, target) != Missing
    requires AllPresent(w.fs, rules[target].reqs)
    requires forall i :: 0 <= i < |rules[target].reqs| ==> MTime(w.fs, rules[target].reqs[i]) <= MTime(w.fs, target)
    ensures Build(rules, shell, target, w, fuel) == Finished(true, w)
  {
    var t := MTime(w.fs, target);
    ScanAllPresent(rules, shell, t, rules[target].reqs, false, w, fuel - 1);
  }

  /** A stale target whose dependencies all exist gets exactly its action's answer and effect. */
  lemma Stale(rules: map<string, Rule>, shell: Shell, target: string, w: World, fuel: nat)
    requires WellFormed(rules) && fuel > 0 && target in rules
    requires AllPresent(w.fs, rules[target].reqs)
    requires MTime(w.fs, target) == Missing || exists i :: 0 <= i < |rules[target].reqs| && MTime(w.fs, rules[target].reqs[i]) > MTime(w.fs, target)
    ensures var s := Invoke(rules[target].action, target, shell, w); Build(rules, shell, target, w, fuel) == Finished(s.ok, s.world)
    ensures rules[target].action.NoAction? ==> Build(rules, shell, target, w, fuel) == Finished(true, w)
  {
    var t := MTime(w.fs, target);
    var reqs := rules[target].reqs;
    var ts := Times(w.fs, reqs);
    ScanAllPresent(rules, shell, t, reqs, t == Missing, w, fuel - 1);
    if t != Missing {
      var i :| 0 <= i < |reqs| && MTime(w.fs, reqs[i]) > t;
      assert ts[i] > t;
    }
    BuildDecision(rules, shell, target, w, fuel, ts, true, w);
  }

  /**
   A missing dependency that fails to resolve fails its parent: no later
   dependency is examined and the parent's action does not run
   (builder.py:69-71). `k` is the position of that dependency and `wk` the
   world once the ones before it are done.
   */
  lemma DependencyFailure(rules: map<string, Rule>, shell: Shell, target: string, w: World, fuel: nat,
                          k: nat, rb: bool, ts: seq<int>, wk: World, wf: World)
    requires WellFormed(rules) && fuel > 0 && target in rules
    requires k < |rules[target].reqs|
    requires ScanReqs(rules, shell, MTime(w.fs, target), rules[target].reqs[..k], MTime(w.fs, target) == Missing, w, fuel - 1) == Scanned(rb, ts, wk)
    requires MTime(wk.fs, rules[target].reqs[k]) == Missing
    requires Build(rules, shell, rules[target].reqs[k], wk, fuel - 1) == Finished(false, wf)
    ensures Build(rules, shell, target, w, fuel) == Finished(false, wf)
  {
    var t := MTime(w.fs, target);
    var reqs := rules[target].reqs;
    assert reqs == reqs[..k] + reqs[k..];
    ScanSplit(rules, shell, t, reqs[..k], reqs[k..], t == Missing, w, fuel - 1);
    assert reqs[k..][0] == reqs[k];
    assert Examine(rules, shell, reqs[k], wk, fuel - 1) == Stop(Aborted(wf));
    assert ScanReqs(rules, shell, t, reqs[k..], rb, wk, fuel - 1) == Aborted(wf);
  }

  /**
   A dependency with no rule that is missing when its turn comes makes the
   parent fail, the world as the earlier dependencies left it
   (builder.py:63-64, 83-85).
   */
  lemma UnknownDependency(rules: map<string, Rule>, shell: Shell, target: string, w: World, fuel: nat,
                          k: nat, rb: bool, ts: seq<int>, wk: World)
    requires WellFormed(rules) && fuel > 1 && target in rules
    requires k < |rules[target].reqs| && rules[target].reqs[k] !in rules
    requires ScanReqs(rules, shell, MTime(w.fs, target), rules[target].reqs[..k], MTime(w.fs, target) == Missing, w, fuel - 1) == Scanned(rb, ts, wk)
    requires MTime(wk.fs, rules[target].reqs[k]) == Missing
    ensures Build(rules, shell, target, w, fuel) == Finished(false, wk)
  {
    DependencyFailure(rules, shell, target, w, fuel, k, rb, ts, wk, wk);
  }

  /**
   A missing dependency that resolves is timed again afterwards: the time the
   rebuild decision sees for it is its time in the world after its own
   resolution (builder.py:72-73).
   */
  lemma DependencyReread(rules: map<string, Rule>, shell: Shell, t: int, reqs: seq<string>, rebuild: bool, w: World, fuel: nat,
                         k: nat, rb: bool, ts: seq<int>, wk: World, wr: World)
    requires WellFormed(rules) && k < |reqs|
    requires ScanReqs(rules, shell, t, reqs[..k], rebuild, w, fuel) == Scanned(rb, ts, wk)
    requires MTime(wk.fs, reqs[k]) == Missing
    requires Build(rules, shell, reqs[k], wk, fuel) == Finished(true, wr)
    requires ScanReqs(rules, shell, t, reqs, rebuild, w, fuel).Scanned?
    ensures ScanReqs(rules, shell, t, reqs, rebuild, w, fuel).times[k] == MTime(wr.fs, reqs[k])
  {
    var a, b := reqs[..k], reqs[k..];
    var s2 := ScanReqs(rules, shell, t, b, rb, wk, fuel);
    assert ScanReqs(rules, shell, t, reqs, rebuild, w, fuel) == Then(rules, shell, t, Scanned(rb, ts, wk), b, fuel) by {
      assert reqs == a + b;
      ScanSplit(rules, shell, t, a, b, rebuild, w, fuel);
    }
    assert s2.Scanned? ==> s2.times[0] == MTime(wr.fs, reqs[k]) by {
      assert b[0] == reqs[k];
      ResolvedHead(rules, shell, t, b, rb, wk, fuel, wr);
    }
    assert |ts| == k;
  }

  /** The scan of dependencies whose first one is missing and resolves reads that one's time afterwards. */
  lemma ResolvedHead(rules: map<string, Rule>, shell: Shell, t: int, reqs: seq<string>, rebuild: bool, w: World, fuel: nat, wr: World)
    requires WellFormed(rules) && reqs != []
    requires MTime(w.fs, reqs[0]) == Missing
    requires Build(rules, shell, reqs[0], w, fuel) == Finished(true, wr)
    ensures var s := ScanReqs(rules, shell, t, reqs, rebuild, w, fuel); s.Scanned? ==> s.times[0] == MTime(wr.fs, reqs[0])
  {
    var m := MTime(wr.fs, reqs[0]);
    assert Examine(rules, shell, reqs[0], w, fuel) == Go(m, wr);
    ScanCons(rules, shell, t, reqs, rebuild, w, fuel);
  }

  /**
   Fuel is only a bound: an answer reached with some fuel is the same answer
   with any larger fuel.
   */
  lemma {:induction false} BuildFuelMonotone(rules: map<string, Rule>, shell: Shell, target: string, w: World, fuel: nat, more: nat)
    requires WellFormed(rules) && fuel <= more
    requires Build(rules, shell, target, w, fuel).Finished?
    ensures Build(rules, shell, target, w, more) == Build(rules, shell, target, w, fuel)
    decreases fuel, 0, 0
  {
    if target in rules {
      var t := MTime(w.fs, target);
      ScanFuelMonotone(rules, shell, t, rules[target].reqs, t == Missing, w, fuel - 1, more - 1);
    }
  }

  lemma {:induction false} ExamineFuelMonotone(rules: map<string, Rule>, shell: Shell, req: string, w: World, fuel: nat, more: nat)
    requires WellFormed(rules) && fuel <= more
    requires Examine(rules, shell, req, w, fuel) != Stop(ScanOutOfFuel)
    ensures Examine(rules, shell, req, w, more) == Examine(rules, shell, req, w, fuel)
    decreases fuel, 0, 1
  {
    if MTime(w.fs, req) == Missing {
      BuildFuelMonotone(rules, shell, req, w, fuel, more);
    }
  }

  lemma {:induction false} ScanFuelMonotone(rules: map<string, Rule>, shell: Shell, t: int, reqs: seq<string>, rebuild: bool, w: World, fuel: nat, more: nat)
    requires WellFormed(rules) && fuel <= more
    requires !ScanReqs(rules, shell, t, reqs, rebuild, w, fuel).ScanOutOfFuel?
    ensures ScanReqs(rules, shell, t, reqs, rebuild, w, more) == ScanReqs(rules, shell, t, reqs, rebuild, w, fuel)
    decreases fuel, |reqs|, 2
  {
    if reqs != [] {
      ExamineFuelMonotone(rules, shell, reqs[0], w, fuel, more);
      match Examine(rules, shell, reqs[0], w, fuel)
      case Stop(_) =>
      case Go(m, w1) =>
        ScanFuelMonotone(rules, shell, t, reqs[1..], rebuild || m > t, w1, fuel, more);
    }
  }
}
