/**
 `process_vars` (builder.py:160-168): the `VAR=VAL` arguments become
 variable bindings and are removed from the argument list. The source
 writes the bindings into the globals of the outermost stack frame; here
 they are returned as a map.
 */
module Vars {

  /** `'=' in x`: the argument is a variable binding. */
  predicate IsBinding(x: string) {
    '=' in x
  }

  /**
   `var.split('=')` unpacks into exactly two names only when there is a
   single `=`; with more it raises ValueError (builder.py:166).
   */
  predicate AtMostOneEq(x: string) {
    forall i, j :: 0 <= i < j < |x| ==> x[i] != '=' || x[j] != '='
  }

  /** Position of the first `=`. */
  function EqIndex(x: string): (i: nat)
    requires IsBinding(x)
    ensures i < |x| && x[i] == '='
    ensures forall j :: 0 <= j < i ==> x[j] != '='
  {
    if x[0] == '=' then 0 else 1 + EqIndex(x[1..])
  }

  /** The text before the `=`: the longest prefix free of `=`. */
  function Key(x: string): (k: string)
    requires IsBinding(x)
    ensures '=' !in k && |k| < |x| && x[|k|] == '=' && k == x[..|k|]
  {
    x[..EqIndex(x)]
  }

  /** The text after the `=`: what is left once the key and its `=` are taken off. */
  function Value(x: string): (v: string)
    requires IsBinding(x)
    ensures Key(x) + "=" + v == x
  {
    assert x == x[..EqIndex(x)] + "=" + x[EqIndex(x) + 1..];
    x[EqIndex(x) + 1..]
  }

  /**
   `key, val = var.split('=')`: the argument is exactly key, `=`, value, neither
   side contains `=`, and that is the only way to cut it so.
   */
  lemma KeyValue(x: string)
    requires IsBinding(x) && AtMostOneEq(x)
    ensures Key(x) + "=" + Value(x) == x
    ensures '=' !in Key(x) && '=' !in Value(x)
    ensures forall k, v :: k + "=" + v == x && '=' !in k ==> k == Key(x) && v == Value(x)
  {
    var i := EqIndex(x);
    assert x == x[..i] + "=" + x[i + 1..];
    forall j | 0 <= j < |Value(x)|
      ensures Value(x)[j] != '='
    {
      assert Value(x)[j] == x[i + 1 + j];
    }
    forall k, v | k + "=" + v == x && '=' !in k
      ensures k == Key(x) && v == Value(x)
    {
      assert x[|k|] == '=';
      assert |k| == i;
      assert x[..i] == k;
      assert x[i + 1..] == v;
    }
  }

  /** `[x for x in args if '=' not in x]` (builder.py:168). */
  function Remaining(args: seq<string>): (r: seq<string>)
    ensures forall x :: x in r <==> x in args && !IsBinding(x)
    ensures |r| <= |args|
  {
    if args == [] then []
    else (if IsBinding(args[0]) then [] else [args[0]]) + Remaining(args[1..])
  }

  /**
   The bindings `process_vars` installs (builder.py:165-167), one per `VAR=VAL`
   argument in order, so a later binding of a name overwrites an earlier one.
   */
  function Bindings(args: seq<string>): (m: map<string, string>)
    requires forall i :: 0 <= i < |args| ==> AtMostOneEq(args[i])
    ensures m.Keys <= set x | x in args && IsBinding(x) :: Key(x)
  {
    if args == [] then map[]
    else
      var x := args[|args| - 1];
      var m := Bindings(args[..|args| - 1]);
      if IsBinding(x) then m[Key(x) := Value(x)] else m
  }

  /** A name is bound exactly when some argument binds it. */
  lemma {:induction false} BindingsKeys(args: seq<string>, k: string)
    requires forall i :: 0 <= i < |args| ==> AtMostOneEq(args[i])
    ensures k in Bindings(args) <==> exists x :: x in args && IsBinding(x) && Key(x) == k
  {
    if args != [] {
      var n := |args| - 1;
      var init, x := args[..n], args[n];
      assert args == init + [x];
      var m := Bindings(init);
      assert Bindings(args) == if IsBinding(x) then m[Key(x) := Value(x)] else m;
      BindingsKeys(init, k);
    }
  }

  /** The last argument that binds a name decides its value: later bindings overwrite earlier ones. */
  lemma {:induction false} BindingsLastWins(args: seq<string>, i: nat)
    requires forall j :: 0 <= j < |args| ==> AtMostOneEq(args[j])
    requires i < |args| && IsBinding(args[i])
    requires forall j :: i < j < |args| && IsBinding(args[j]) ==> Key(args[j]) != Key(args[i])
    ensures Key(args[i]) in Bindings(args) && Bindings(args)[Key(args[i])] == Value(args[i])
  {
    var n := |args| - 1;
    var init, x := args[..n], args[n];
    var m := Bindings(init);
    assert Bindings(args) == if IsBinding(x) then m[Key(x) := Value(x)] else m;
    if i < n {
      assert init[i] == args[i];
      assert forall j :: 0 <= j < |init| ==> init[j] == args[j];
      BindingsLastWins(init, i);
      assert IsBinding(x) ==> Key(x) != Key(args[i]);
    }
  }

  /** The two results of `process_vars`: the remaining arguments and the bindings. */
  datatype VarsResult = VarsResult(args: seq<string>, vars: map<string, string>)

  /** The last argument that binds a name, or none later binds the same name. */
  predicate LastBinding(args: seq<string>, i: int)
    requires 0 <= i < |args|
  {
    IsBinding(args[i]) && forall j :: i < j < |args| && IsBinding(args[j]) ==> Key(args[j]) != Key(args[i])
  }

  /** `BindingsKeys` and `BindingsLastWins` for every name and argument at once. */
  lemma BindingsSpec(args: seq<string>)
    requires forall i :: 0 <= i < |args| ==> AtMostOneEq(args[i])
    ensures forall k :: k in Bindings(args) <==> exists x :: x in args && IsBinding(x) && Key(x) == k
    ensures forall i :: 0 <= i < |args| && LastBinding(args, i) ==>
      Key(args[i]) in Bindings(args) && Bindings(args)[Key(args[i])] == Value(args[i])
  {
    forall k
      ensures k in Bindings(args) <==> exists x :: x in args && IsBinding(x) && Key(x) == k
    {
      BindingsKeys(args, k);
    }
    forall i | 0 <= i < |args| && LastBinding(args, i)
      ensures Key(args[i]) in Bindings(args) && Bindings(args)[Key(args[i])] == Value(args[i])
    {
      BindingsLastWins(args, i);
    }
  }

  /**
   `process_vars(args)` (builder.py:160-168): the arguments without `=` are
   kept, every `VAR=VAL` argument binds `VAR`, and the last binding of a name wins.
   */
  function ProcessVars(args: seq<string>): (r: VarsResult)
    requires forall i :: 0 <= i < |args| ==> AtMostOneEq(args[i])
    ensures forall x :: x in r.args <==> x in args && !IsBinding(x)
    ensures forall k :: k in r.vars <==> exists x :: x in args && IsBinding(x) && Key(x) == k
    ensures forall i :: 0 <= i < |args| && LastBinding(args, i) ==>
      Key(args[i]) in r.vars && r.vars[Key(args[i])] == Value(args[i])
    ensures |r.args| + |r.vars| <= |args|
    ensures r.args == args <==> forall i :: 0 <= i < |args| ==> !IsBinding(args[i])
  {
    RemainingCount(args);
    BindingsCount(args);
    RemainingUnchanged(args);
    BindingsSpec(args);
    VarsResult(Remaining(args), Bindings(args))
  }

  /** The kept arguments keep their order: processing `a + b` keeps those of `a`, then those of `b`. */
  lemma ProcessVarsKeepsOrder(a: seq<string>, b: seq<string>)
    requires forall i :: 0 <= i < |a| ==> AtMostOneEq(a[i])
    requires forall i :: 0 <= i < |b| ==> AtMostOneEq(b[i])
    ensures forall i :: 0 <= i < |a + b| ==> AtMostOneEq((a + b)[i])
    ensures ProcessVars(a + b).args == ProcessVars(a).args + ProcessVars(b).args
  {
    RemainingAppend(a, b);
  }

  /** The number of arguments that are bindings. */
  function CountBindings(args: seq<string>): nat {
    if args == [] then 0 else (if IsBinding(args[0]) then 1 else 0) + CountBindings(args[1..])
  }

  lemma {:induction false} RemainingCount(args: seq<string>)
    ensures |Remaining(args)| + CountBindings(args) == |args|
  {
    if args != [] {
      RemainingCount(args[1..]);
    }
  }

  lemma CountBindingsAppend(a: seq<string>, b: seq<string>)
    ensures CountBindings(a + b) == CountBindings(a) + CountBindings(b)
  {
    if a == [] {
      assert a + b == b;
    } else {
      assert (a + b)[1..] == a[1..] + b;
      CountBindingsAppend(a[1..], b);
    }
  }

  lemma {:induction false} BindingsCount(args: seq<string>)
    requires forall i :: 0 <= i < |args| ==> AtMostOneEq(args[i])
    ensures |Bindings(args)| <= CountBindings(args)
  {
    if args != [] {
      var n := |args| - 1;
      var init := args[..n];
      var x := args[n];
      assert args == init + [x];
      BindingsCount(init);
      CountBindingsAppend(init, [x]);
      assert CountBindings([x]) == if IsBinding(x) then 1 else 0 by {
        assert [x][1..] == [];
      }
      var m := Bindings(init);
      if IsBinding(x) {
        assert Bindings(args) == m[Key(x) := Value(x)];
        assert m[Key(x) := Value(x)].Keys == m.Keys + {Key(x)};
      } else {
        assert Bindings(args) == m;
      }
    }
  }

  /** Filtering distributes over concatenation, so the kept arguments stay in their original order. */
  lemma {:induction false} RemainingAppend(a: seq<string>, b: seq<string>)
    ensures Remaining(a + b) == Remaining(a) + Remaining(b)
  {
    if a == [] {
      assert a + b == b;
    } else {
      assert (a + b)[0] == a[0];
      assert (a + b)[1..] == a[1..] + b;
      RemainingAppend(a[1..], b);
    }
  }

  /** Arguments without any `=` all pass through untouched. */
  lemma {:induction false} RemainingNoBindings(args: seq<string>)
    requires forall i :: 0 <= i < |args| ==> !IsBinding(args[i])
    ensures Remaining(args) == args
  {
    if args != [] {
      assert !IsBinding(args[0]);
      RemainingNoBindings(args[1..]);
    }
  }

  /** The arguments come back unchanged exactly when none of them is a binding. */
  lemma RemainingUnchanged(args: seq<string>)
    ensures Remaining(args) == args <==> forall i :: 0 <= i < |args| ==> !IsBinding(args[i])
  {
    if forall i :: 0 <= i < |args| ==> !IsBinding(args[i]) {
      RemainingNoBindings(args);
    } else {
      var i :| 0 <= i < |args| && IsBinding(args[i]);
      assert args[i] in args;
      assert args[i] !in Remaining(args);
    }
  }

  /** Running `process_vars` on its own output changes nothing more and binds nothing. */
  lemma ProcessVarsIdempotent(args: seq<string>)
    requires forall i :: 0 <= i < |args| ==> AtMostOneEq(args[i])
    ensures var r := ProcessVars(args); forall i :: 0 <= i < |r.args| ==> AtMostOneEq(r.args[i])
    ensures var r := ProcessVars(args); ProcessVars(r.args) == VarsResult(r.args, map[])
  {
    var r := ProcessVars(args);
    forall i | 0 <= i < |r.args|
      ensures !IsBinding(r.args[i]) && AtMostOneEq(r.args[i])
    {
      assert r.args[i] in r.args;
    }
    RemainingNoBindings(r.args);
    var m := Bindings(r.args);
    forall k
      ensures k !in m
    {
      BindingsKeys(r.args, k);
    }
    assert m.Keys == {};
  }
}
