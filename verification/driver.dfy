/**
 `process_targets` (builder.py:141-157): build the targets named on the
 command line in order, or the first declared target when none is named,
 and turn the answer into an exit code. The command-line arguments are a
 parameter here instead of `sys.argv[1:]`.
 */
module Driver {
  import opened Host
  import opened Rules
  import opened Resolver

  /** An exit code with the world after the builds, or exhaustion of the modelling fuel. */
  datatype Exit = Exit(code: int, world: World) | ExitOutOfFuel

  /** Build the targets left to right, stopping at the first one that fails (builder.py:154-156). */
  function BuildEach(rules: map<string, Rule>, shell: Shell, targets: seq<string>, w: World, fuel: nat): (r: Outcome)
    requires WellFormed(rules)
    ensures r.Finished? ==> Extends(w, r.world)
    ensures targets == [] ==> r == Finished(true, w)
  {
    if targets == [] then Finished(true, w)
    else
      match Build(rules, shell, targets[0], w, fuel)
      case OutOfFuel => OutOfFuel
      case Finished(ok, w1) =>
        if ok then BuildEach(rules, shell, targets[1..], w1, fuel) else Finished(false, w1)
  }

  /**
   Building `a + b` builds `a`; only when all of `a` succeeds does it go on
   to `b`, from the world `a` left. A failure stops everything after it.
   */
  lemma {:induction false} BuildEachSplit(rules: map<string, Rule>, shell: Shell, a: seq<string>, b: seq<string>, w: World, fuel: nat)
    requires WellFormed(rules)
    ensures var ra := BuildEach(rules, shell, a, w, fuel);
      BuildEach(rules, shell, a + b, w, fuel) == if ra.Finished? && ra.ok then BuildEach(rules, shell, b, ra.world, fuel) else ra
  {
    if a == [] {
      assert a + b == b;
    } else {
      assert (a + b)[0] == a[0];
      assert (a + b)[1..] == a[1..] + b;
      var r0 := Build(rules, shell, a[0], w, fuel);
      if r0.Finished? && r0.ok {
        BuildEachSplit(rules, shell, a[1..], b, r0.world, fuel);
      }
    }
  }

  /** An unknown target among the arguments fails the run, and nothing after it is built. */
  lemma UnknownTargetStops(rules: map<string, Rule>, shell: Shell, a: seq<string>, u: string, b: seq<string>, w: World, fuel: nat, wa: World)
    requires WellFormed(rules) && fuel > 0 && u !in rules
    requires BuildEach(rules, shell, a, w, fuel) == Finished(true, wa)
    ensures BuildEach(rules, shell, a + [u] + b, w, fuel) == Finished(false, wa)
  {
    BuildEachSplit(rules, shell, a, [u] + b, w, fuel);
    assert a + [u] + b == a + ([u] + b);
    assert ([u] + b)[0] == u;
  }

  /**
   `process_targets()` (builder.py:147-157), with `args` for `sys.argv[1:]`.
   Exit code 1 when no target is named and none was ever declared; otherwise
   0 exactly when the first declared target, or every named target in turn,
   builds.
   */
  method ProcessTargets(rs: Ruleset, args: seq<string>, shell: Shell, w: World, fuel: nat) returns (r: Exit)
    requires WellFormed(rs.rules)
    ensures r.Exit? ==> r.code == 0 || r.code == 1
    ensures r.Exit? ==> Extends(w, r.world)
    ensures args == [] && rs.first == "" ==> r == Exit(1, w)
    ensures args == [] && rs.first != "" ==>
      match Build(rs.rules, shell, rs.first, w, fuel)
      case OutOfFuel => r == ExitOutOfFuel
      case Finished(ok, w1) => r == Exit(if ok then 0 else 1, w1)
    ensures args != [] ==>
      match BuildEach(rs.rules, shell, args, w, fuel)
      case OutOfFuel => r == ExitOutOfFuel
      case Finished(ok, w1) => r == Exit(if ok then 0 else 1, w1)
  {
    if |args| == 0 {
      if rs.first == "" {
        return Exit(1, w);
      }
      var o := Build(rs.rules, shell, rs.first, w, fuel);
      if o.OutOfFuel? {
        return ExitOutOfFuel;
      }
      if !o.ok {
        return Exit(1, o.world);
      }
      return Exit(0, o.world);
    }
    var cur := w;
    var i := 0;
    while i < |args|
      invariant 0 <= i <= |args|
      invariant Extends(w, cur)
      invariant BuildEach(rs.rules, shell, args, w, fuel) == BuildEach(rs.rules, shell, args[i..], cur, fuel)
    {
      var o := Build(rs.rules, shell, args[i], cur, fuel);
      assert args[i..][0] == args[i] && args[i..][1..] == args[i + 1..];
      if o.OutOfFuel? {
        return ExitOutOfFuel;
      }
      if !o.ok {
        return Exit(1, o.world);
      }
      cur := o.world;
      i := i + 1;
    }
    return Exit(0, cur);
  }
}
