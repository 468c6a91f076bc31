/**
 Concrete rule sets run through the model, for some of the behaviours the
 repository's tests exercise (test_builder.py) or its sample rules file
 declares (example.py).
 */
module Scenarios {
  import opened Text
  import opened Commands
  import opened Host
  import opened Actions
  import opened Rules
  import opened Resolver

  /**
   `target` depends on `req`, both touched by `touch()`, neither present:
   `build_target` (builder.py:59-85) resolves `req` first, touching it at
   clock `c`, then touches `target` at `c + 1`.
   */
  lemma TouchChain(shell: Shell, target: string, req: string, c: int, fuel: nat)
    requires target != req
    requires shell(TouchLine(req)) == 0 && shell(TouchLine(target)) == 0
    requires fuel >= 2
    ensures Build(ChainRules(target, req), shell, target, World(map[], c, []), fuel)
      == Finished(true, World(map[req := c, target := c + 1], c + 2,
                              [Command(TouchLine(req), false, true), Command(TouchLine(target), false, true)]))
  {
    var rules := ChainRules(target, req);
    var w0 := World(map[], c, []);
    var w1 := World(map[req := c], c + 1, [Command(TouchLine(req), false, true)]);
    var w2 := World(map[req := c, target := c + 1], c + 2,
                    [Command(TouchLine(req), false, true), Command(TouchLine(target), false, true)]);
    assert rules[target] == Rule([req], TouchTarget) && MTime(w0.fs, target) == Missing;
    assert ScanReqs(rules, shell, Missing, [req], true, w0, fuel - 1) == Scanned(true, [c], w1) by {
      ChainReqFirst(shell, target, req, c, fuel - 1);
      ScanReqsOne(rules, shell, req, w0, w1, c, fuel - 1);
    }
    assert Build(rules, shell, target, w0, fuel)
      == Finished(Invoke(TouchTarget, target, shell, w1).ok, Invoke(TouchTarget, target, shell, w1).world) by {
      BuildDecision(rules, shell, target, w0, fuel, [c], true, w1);
    }
    assert Invoke(TouchTarget, target, shell, w1) == Step(true, w2) by {
      TouchSucceeds(shell, target, w1);
      assert w1.log + [Command(TouchLine(target), false, true)] == w2.log;
      assert w1.fs[target := c + 1] == w2.fs;
    }
  }

  /** `target` depends on `req`; both are made by `touch()`. */
  function ChainRules(target: string, req: string): (rules: map<string, Rule>)
    ensures WellFormed(rules)
  {
    map[req := Rule([], TouchTarget), target := Rule([req], TouchTarget)]
  }

  /** The first step of `TouchChain`: the missing `req` is built by touching it at clock `c`. */
  lemma ChainReqFirst(shell: Shell, target: string, req: string, c: int, fuel: nat)
    requires target != req
    requires shell(TouchLine(req)) == 0 && fuel > 0
    ensures Examine(ChainRules(target, req), shell, req, World(map[], c, []), fuel)
      == Go(c, World(map[req := c], c + 1, [Command(TouchLine(req), false, true)]))
  {
    var rules := ChainRules(target, req);
    var w0 := World(map[], c, []);
    assert rules[req] == Rule([], TouchTarget);
    TouchWhenMissing(rules, shell, req, w0, fuel);
    assert MTime(w0.fs, req) == Missing;
    assert [] + [Command(TouchLine(req), false, true)] == [Command(TouchLine(req), false, true)];
  }

  /** A missing target whose dependencies exist and whose action is `touch()` is stamped with the clock. */
  lemma TouchWhenMissing(rules: map<string, Rule>, shell: Shell, target: string, w: World, fuel: nat)
    requires WellFormed(rules) && fuel > 0 && target in rules && rules[target].action == TouchTarget
    requires AllPresent(w.fs, rules[target].reqs) && target !in w.fs
    requires shell(TouchLine(target)) == 0
    ensures Build(rules, shell, target, w, fuel)
      == Finished(true, World(w.fs[target := w.clock], w.clock + 1, w.log + [Command(TouchLine(target), false, true)]))
  {
    assert MTime(w.fs, target) == Missing;
    Stale(rules, shell, target, w, fuel);
    TouchSucceeds(shell, target, w);
  }

  /** `touch()` on a target whose `touch` line the shell accepts stamps it with the clock. */
  lemma TouchSucceeds(shell: Shell, target: string, w: World)
    requires shell(TouchLine(target)) == 0
    ensures Invoke(TouchTarget, target, shell, w)
      == Step(true, World(w.fs[target := w.clock], w.clock + 1, w.log + [Command(TouchLine(target), false, true)]))
  {
    var s := Invoke(TouchTarget, target, shell, w);
    assert s.ok && s.world.fs == w.fs[target := w.clock];
  }

  lemma ScanReqsOne(rules: map<string, Rule>, shell: Shell, req: string, w0: World, w1: World, m: int, fuel: nat)
    requires WellFormed(rules)
    requires Examine(rules, shell, req, w0, fuel) == Go(m, w1)
    ensures ScanReqs(rules, shell, Missing, [req], true, w0, fuel) == Scanned(true, [m], w1)
  {
    assert [req][0] == req && [req][1..] == [];
  }

  /**
   A missing target whose one dependency exists is touched with
   `touch <target>` (test_builder.py:60-64, where the dependency's time is 1).
   */
  lemma TouchMissingTarget(shell: Shell, target: string, req: string, t: int, c: int, fuel: nat)
    requires target != req && t != Missing
    requires shell(TouchLine(target)) == 0
    requires fuel > 0
    ensures Build(map[target := Rule([req], TouchTarget)], shell, target, World(map[req := t], c, []), fuel)
      == Finished(true, World(map[req := t, target := c], c + 1, [Command(TouchLine(target), false, true)]))
  {
    var rules := map[target := Rule([req], TouchTarget)];
    var w := World(map[req := t], c, []);
    assert WellFormed(rules);
    assert AllPresent(w.fs, [req]) by {
      assert MTime(w.fs, [req][0]) == t;
    }
    assert [] + [Command(TouchLine(target), false, true)] == [Command(TouchLine(target), false, true)];
    TouchWhenMissing(rules, shell, target, w, fuel);
  }

  /** A target with no dependencies and a one-word `run` action runs that word once. */
  lemma OneWordRun(shell: Shell, word: string, w: World, fuel: nat)
    requires IsWord(word) && Parsable(word) && "fail" !in w.fs && fuel > 0
    ensures var c := Parse(word);
      Build(map["fail" := Rule([], RunAction([word]))], shell, "fail", w, fuel)
      == Finished(Succeeds(c, shell(c.line)), w.(clock := w.clock + 1, log := w.log + [c]))
  {
    SplitOfWord(word);
    assert Tokens([word]) == Split(word) + Tokens([]);
    var a := RunAction([word]);
    assert a == Run([word]);
    assert Join([word]) == word;
    var rules := map["fail" := Rule([], a)];
    assert WellFormed(rules);
    Stale(rules, shell, "fail", w, fuel);
  }

  /** `run('false')` fails its target when `false` exits non-zero (test_builder.py:139-146). */
  lemma FailingRun(shell: Shell, w: World, fuel: nat)
    requires shell("false") != 0 && "fail" !in w.fs && fuel > 0
    ensures Build(map["fail" := Rule([], RunAction(["false"]))], shell, "fail", w, fuel)
      == Finished(false, w.(clock := w.clock + 1, log := w.log + [Command("false", false, true)]))
  {
    assert IsWord("false") by {
      assert forall i :: 0 <= i < 5 ==> "false"[i] in "false";
    }
    assert Parse("false") == Command("false", false, true);
    OneWordRun(shell, "false", w, fuel);
  }

  /**
   `run('-false')` succeeds although `false` exits non-zero: the leading `-`
   is stripped and the status ignored (builder.py:99-113).
   */
  lemma IgnoredFailure(shell: Shell, w: World, fuel: nat)
    requires shell("false") != 0 && "fail" !in w.fs && fuel > 0
    ensures Build(map["fail" := Rule([], RunAction(["-false"]))], shell, "fail", w, fuel)
      == Finished(true, w.(clock := w.clock + 1, log := w.log + [Command("false", true, true)]))
  {
    assert IsWord("-false") by {
      assert forall i :: 0 <= i < 6 ==> "-false"[i] in "-false";
    }
    assert "-false"[1..] == "false";
    assert Parse("-false") == Command("false", true, true);
    OneWordRun(shell, "-false", w, fuel);
  }
}
