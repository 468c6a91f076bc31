/**
 The actions a rule can carry, and the builders `run` and `touch` that
 produce them (builder.py:116-138). The source represents an action as a
 closure; here it is a value that `Invoke` interprets.
 */
module Actions {
  import opened Text
  import opened Commands
  import opened Host

  /**
   `NoAction` is a rule whose build function is None; `Run` is the closure
   `run` returns, holding its flattened tokens; `TouchTarget` is the closure
   `touch()` returns, which touches whatever target it is invoked for.
   */
  datatype Action = NoAction | Run(tokens: seq<string>) | TouchTarget

  /** `run(*args)` (builder.py:116-125): the tokens are the whitespace split of every argument. */
  function RunAction(args: seq<string>): (a: Action)
    ensures a.Run? && AllWords(a.tokens)
    ensures Concat(a.tokens) == Strip(Join(args))
    ensures Split(Join(args)) == a.tokens
  {
    TokensOfJoin(args);
    SplitKeepsText(Join(args));
    Run(Tokens(args))
  }

  /** `touch(*args)` (builder.py:128-138): touch the target itself, or run `touch` on the arguments. */
  function TouchAction(args: seq<string>): (a: Action)
    ensures args == [] <==> a == TouchTarget
    ensures args != [] ==> a == Run(["touch"] + Tokens(args))
  {
    if |args| == 0 then TouchTarget
    else
      assert Tokens(["touch"] + args) == Split("touch") + Tokens(args) by {
        assert (["touch"] + args)[1..] == args;
      }
      SplitOfWord("touch");
      RunAction(["touch"] + args)
  }

  /** An action that can be invoked without `cmd` raising on its command line. */
  predicate Invocable(a: Action) {
    a.Run? ==> Parsable(Join(a.tokens))
  }

  /** The command line `touch()` issues for `target` (builder.py:135). */
  function TouchLine(target: string): string {
    "touch " + target
  }

  /**
   `cmd('touch', target)` joins its two arguments with a space, so a target
   that is a single word reaches the shell as `touch` with that word as its
   one argument.
   */
  lemma TouchLineWords(target: string)
    ensures TouchLine(target) == Join(["touch", target])
    ensures IsWord(target) ==> Split(TouchLine(target)) == ["touch", target]
  {
    assert IsWord("touch") by {
      assert forall i :: 0 <= i < 5 ==> "touch"[i] in "touch";
    }
    assert ["touch", target][1..] == [target];
    if IsWord(target) {
      SplitJoin(["touch", target]);
    }
  }

  /**
   Call the action for `target`, as `build_target` does at builder.py:78.
   A successful touch gives the target the current clock as its time; nothing
   else changes a timestamp.
   */
  function Invoke(a: Action, target: string, shell: Shell, w: World): (r: Step)
    requires Invocable(a)
    ensures a.NoAction? ==> r == Step(true, w)
    ensures a.Run? ==> r.world.log == w.log + [Parse(Join(a.tokens))] && r.world.fs == w.fs
    ensures a.Run? ==> (r.ok <==> Succeeds(Parse(Join(a.tokens)), shell(Parse(Join(a.tokens)).line)))
    ensures a.TouchTarget? ==> r.world.log == w.log + [Command(TouchLine(target), false, true)]
    ensures a.TouchTarget? ==> (r.ok <==> shell(TouchLine(target)) == 0)
    ensures a.TouchTarget? && r.ok ==> r.world.fs == w.fs[target := w.clock]
    ensures a.TouchTarget? && !r.ok ==> r.world.fs == w.fs
    ensures forall p :: p != target || !r.ok || !a.TouchTarget? ==> MTime(r.world.fs, p) == MTime(w.fs, p)
    ensures a.NoAction? || r.world.clock == w.clock + 1
  {
    match a
    case NoAction => Step(true, w)
    case Run(tokens) =>
      var s := Cmd(tokens, shell, w);
      assert s.world.log == w.log + [Parse(Join(tokens))];
      s
    case TouchTarget =>
      TouchCmd(target, shell, w);
      var s := Cmd(["touch", target], shell, w);
      if s.ok then Step(true, s.world.(fs := w.fs[target := w.clock])) else s
  }

  /** `cmd('touch', target)`: the line carries no flags, so it is logged as is and succeeds iff its status is 0. */
  lemma TouchCmd(target: string, shell: Shell, w: World)
    ensures Parsable(Join(["touch", target]))
    ensures Cmd(["touch", target], shell, w)
      == Step(shell(TouchLine(target)) == 0, World(w.fs, w.clock + 1, w.log + [Command(TouchLine(target), false, true)]))
  {
    assert ["touch", target][1..] == [target];
    assert Join(["touch", target]) == TouchLine(target);
    assert TouchLine(target)[0] == 't';
    assert Parse(TouchLine(target)) == Command(TouchLine(target), false, true);
  }

  /** A `run` action can be invoked exactly when it has tokens and they are not the lone word "-". */
  lemma RunInvocable(args: seq<string>)
    ensures Invocable(RunAction(args)) <==> Tokens(args) != [] && Tokens(args) != ["-"]
  {
    var ts := Tokens(args);
    JoinEmpty(ts);
    if |ts| >= 2 {
      assert Join(ts)[|ts[0]|] == ' ';
    } else if |ts| == 1 {
      assert Join(ts) == ts[0];
    }
  }

  /** `run('a b', 'c')` and `run('a', 'b', 'c')` build the same action. */
  lemma RunDependsOnlyOnText(a: seq<string>, b: seq<string>)
    requires Join(a) == Join(b)
    ensures RunAction(a) == RunAction(b)
  {
    TokensDependOnlyOnJoin(a, b);
  }
}
