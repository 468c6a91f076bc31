/**
 The rule registry (builder.py:29-30, 43-56): a map from target name to its
 dependencies and action, plus the first target ever declared. The source
 keeps both in module globals; here they form a value that each
 registration returns updated.

 `_FIRST` starts as None, and every use tests it with `not _FIRST`, which
 cannot tell None from the empty string; both are the empty string here.
 */
module Rules {
  import opened Actions

  datatype Rule = Rule(reqs: seq<string>, action: Action)

  datatype Ruleset = Ruleset(rules: map<string, Rule>, first: string)

  /** The registry at process start. */
  const Empty: Ruleset := Ruleset(map[], "")

  /** `rule(target, build, *reqs)` (builder.py:43-56). */
  function Register(rs: Ruleset, target: string, action: Action, reqs: seq<string>): (r: Ruleset)
    ensures target in r.rules && r.rules[target] == Rule(reqs, action)
    ensures r.rules.Keys == rs.rules.Keys + {target}
    ensures forall t :: t in rs.rules && t != target ==> r.rules[t] == rs.rules[t]
    ensures rs.first != "" ==> r.first == rs.first
    ensures rs.first == "" ==> r.first == target
  {
    Ruleset(rs.rules[target := Rule(reqs, action)], if rs.first == "" then target else rs.first)
  }

  /** One `rule(...)` call of a rules script. */
  datatype Decl = Decl(target: string, action: Action, reqs: seq<string>)

  /** A rules script: its `rule(...)` calls made in order. */
  function RegisterAll(rs: Ruleset, decls: seq<Decl>): Ruleset
  {
    if decls == [] then rs
    else
      var d := decls[|decls| - 1];
      Register(RegisterAll(rs, decls[..|decls| - 1]), d.target, d.action, d.reqs)
  }

  /** The first non-empty target among the declarations, or "" when there is none. */
  function FirstNamed(decls: seq<Decl>): (t: string)
    ensures t != "" ==> exists i :: 0 <= i < |decls| && decls[i].target == t
  {
    if decls == [] then ""
    else if decls[0].target != "" then decls[0].target
    else FirstNamed(decls[1..])
  }

  lemma FirstNamedAppend(decls: seq<Decl>, d: Decl)
    ensures FirstNamed(decls + [d]) == if FirstNamed(decls) != "" then FirstNamed(decls) else d.target
  {
    if decls != [] {
      assert (decls + [d])[1..] == decls[1..] + [d];
      FirstNamedAppend(decls[1..], d);
    } else {
      assert [] + [d] == [d];
    }
  }

  /**
   The remembered first target is fixed by the first registration with a
   non-empty name; later registrations never change it (builder.py:53-54).
   */
  lemma {:induction false} FirstIsFirstNamed(rs: Ruleset, decls: seq<Decl>)
    ensures RegisterAll(rs, decls).first == if rs.first != "" then rs.first else FirstNamed(decls)
  {
    if decls != [] {
      var init := decls[..|decls| - 1];
      var d := decls[|decls| - 1];
      FirstIsFirstNamed(rs, init);
      assert decls == init + [d];
      FirstNamedAppend(init, d);
    }
  }

  /** For a rules script run from process start, `_FIRST` is its first non-empty target. */
  lemma ScriptFirst(decls: seq<Decl>)
    ensures RegisterAll(Empty, decls).first == FirstNamed(decls)
  {
    FirstIsFirstNamed(Empty, decls);
  }

  /**
   The last registration of a target decides its rule; a target never
   registered keeps the rule it had (builder.py:56).
   */
  lemma {:induction false} LastRegistrationWins(rs: Ruleset, decls: seq<Decl>, t: string)
    ensures t in RegisterAll(rs, decls).rules <==> t in rs.rules || exists i :: 0 <= i < |decls| && decls[i].target == t
    ensures forall i :: 0 <= i < |decls| && decls[i].target == t && (forall j :: i < j < |decls| ==> decls[j].target != t) ==>
      RegisterAll(rs, decls).rules[t] == Rule(decls[i].reqs, decls[i].action)
    ensures (forall i :: 0 <= i < |decls| ==> decls[i].target != t) && t in rs.rules ==>
      RegisterAll(rs, decls).rules[t] == rs.rules[t]
  {
    if decls != [] {
      var n := |decls| - 1;
      var init, d := decls[..n], decls[n];
      var prev := RegisterAll(rs, init);
      assert RegisterAll(rs, decls) == Register(prev, d.target, d.action, d.reqs);
      assert forall i :: 0 <= i < n ==> init[i] == decls[i];
      LastRegistrationWins(rs, init, t);
      if d.target != t {
        forall i | 0 <= i < |decls| && decls[i].target == t && (forall j :: i < j < |decls| ==> decls[j].target != t)
          ensures RegisterAll(rs, decls).rules[t] == Rule(decls[i].reqs, decls[i].action)
        {
          assert i < n && init[i] == decls[i];
          assert forall j :: i < j < |init| ==> init[j].target != t;
        }
      }
    }
  }
}
