# builder: a make-like engine, modelled in Dafny

`builder.py` is a small make-like library. A rules script declares targets with
`rule(target, action, *reqs)`. Then `process_targets()` builds the targets named
on the command line, or else the first target ever declared. A target is rebuilt
when its file is missing or a dependency's file is strictly newer. A missing
dependency is built first, recursively. Actions are closures made by `run(...)`
(run a shell command) and `touch(...)` (touch the target or the given files).
`cmd` runs a command line. A leading `-` on the line means "ignore the exit
status". After that, a leading `@` means "do not echo the command".

The model keeps the code's structure, one module per part of `builder.py`:

- `Text` (text.dfy): Python 2's `str.split()` and `' '.join(...)`. It proves the flattening `run` relies on.
- `Commands` (commands.dfy): the `-` / `@` flag parsing of `cmd`, with its inverse `Render`.
- `Host` (host.dfy): the machine as the engine sees it. A `World` holds a timestamp map (`map<string,int>`, with `-1` for a missing file), a clock and a log of executed commands. The shell is an oracle `string -> int` giving the exit status of a command line. `cmd` is `Cmd`.
- `Actions` (actions.dfy): `datatype Action = NoAction | Run(tokens) | TouchTarget`, the builders `run` and `touch`, and `Invoke`. A successful `touch()` sets the target's time to the clock. Every executed command is logged and advances the clock by one.
- `Rules` (rules.dfy): the registry `_RULES` / `_FIRST` as an immutable `Ruleset` value.
- `Resolver` (resolver.dfy): `build_target`, split the way the source's loop is: `Build`, the dependency loop `ScanReqs`, and the per-dependency step `Examine`.
- `Driver` (driver.dfy): `process_targets`.
- `Vars` (vars.dfy): `process_vars`.
- `Scenarios` (scenarios.dfy): concrete runs matching the repository's tests.

`build_target` has no cycle detection. It resolves a dependency only when the
dependency's file is missing (builder.py:69-70), so a cycle whose files exist is
harmless. When the recursion re-enters a target through dependencies whose files
are missing, the source recurses until the interpreter's stack overflows. `Build` therefore takes a `fuel` bound
on the recursion depth and answers `OutOfFuel` when the bound runs out. This is
a modelling device, not behaviour of the source. `BuildFuelMonotone` proves that
an answer reached with some fuel is the same for all larger fuel. So the bound
only cuts off runs that the source would not finish either, or would finish only
with more recursion.

Behaviour of `builder.py` worth knowing:

- For `@-x`, only `@` is stripped. `-x` goes to the shell, and the exit status is not ignored.
- For `VAR=VAL` arguments, `key, val = var.split('=')` raises when there is more than one `=`.

## Model

| member | source | states |
|---|---|---|
| Text.Split | builder.py:120 | every piece of `x.split()` is a non-empty word with no whitespace |
| Text.SplitKeepsText | builder.py:120 | splitting drops only whitespace: the words laid end to end are the input without its whitespace characters |
| Text.Join | builder.py:97 | `' '.join(args)` starts with the first argument and is one character longer than the arguments together for every seam between two of them; `JoinAppend` fixes what that character is |
| Text.JoinAppend | builder.py:97 | joining two non-empty lists is joining each and putting one space between them, so every separator is a single space and every argument's text appears in order |
| Text.SplitAtSpace | builder.py:120 | splitting at a whitespace character equals splitting both sides independently and concatenating |
| Text.SplitJoin | builder.py:97-120 | joining words with single spaces and splitting again gives back exactly those words |
| Text.Tokens | builder.py:120 | the flattened list `sum([x.split() for x in args], [])` holds only non-empty whitespace-free words |
| Text.TokensOfJoin | builder.py:120 | the flattened token list of `run(*args)` is the whitespace split of the space-joined arguments |
| Text.TokensDependOnlyOnJoin | builder.py:116-120 | argument lists with the same space-joined text, such as `('a b','c')` and `('a','b','c')`, give identical tokens |
| Commands.Parse | builder.py:97-105 | ignore-failure is set exactly when the line starts with `-`; no-echo is set exactly when the next character is `@`; the flags followed by the remaining text rebuild the line; the result is canonical |
| Commands.RenderParse | builder.py:97-105 | parsing loses nothing: rendering the parsed flags and text gives back the original line |
| Commands.ParseRender | builder.py:97-105 | every canonical command is the parse of its rendering, so parsing is a bijection between parsable lines and canonical commands |
| Commands.FlagOrder | builder.py:99-105 | `-@x` sets both flags and leaves `x`; `@-x` only suppresses the echo and leaves `-x`, with failures not ignored |
| Host.Cmd | builder.py:88-113 | exactly one command is logged; it is canonical and renders back to the joined arguments, so by `ParseRender` it is the parse of that line: the text after the flags goes to the shell, with the echo flag `@` sets; success iff ignored or status 0; a line starting with `-` always succeeds; timestamps are untouched and the clock advances |
| Actions.RunAction | builder.py:116-125 | `run` yields whitespace-free non-empty tokens which are the split of the joined arguments and carry all their non-whitespace text |
| Actions.TouchAction | builder.py:128-138 | `touch()` with no arguments touches the target given at invocation; with arguments it runs `touch` followed by the arguments' words |
| Actions.Invoke | builder.py:122-135 | no action: True with nothing changed; a run action logs its parsed line and succeeds per its flags and status; `touch()` logs `touch <target>`, succeeds iff that status is 0, and on success sets the target's time to the clock and no other time |
| Actions.TouchLineWords | builder.py:135 | the line `touch()` issues is `cmd('touch', target)` joined with a space, so a one-word target reaches the shell as `touch` followed by exactly that word |
| Actions.RunInvocable | builder.py:97-103 | a `run` action can be invoked without an indexing error exactly when its token list is non-empty and is not the lone word `-` |
| Actions.RunDependsOnlyOnText | builder.py:116-120 | two `run` calls whose arguments join to the same text build the same action |
| Rules.Register | builder.py:43-56 | the target maps to `(reqs, action)`; the key set gains only the target; every other entry is unchanged; the first target is set only when none was set before |
| Rules.FirstIsFirstNamed | builder.py:51-54 | after any sequence of registrations, the first target is the first non-empty target registered, and later registrations never change it |
| Rules.ScriptFirst | builder.py:29-30 | for a rules script run from process start, where `_FIRST` is unset, the remembered first target is the script's first non-empty target |
| Rules.LastRegistrationWins | builder.py:56 | a name is registered iff some declaration names it; its rule is that of the last such declaration; names never declared keep their rule |
| Resolver.Build | builder.py:59-85 | an unknown target answers False with the world unchanged; every answer only extends the command log and never moves the clock back |
| Resolver.ScanReqs | builder.py:67-75 | a completed dependency loop reads one time per dependency; it sets the rebuild flag exactly when the flag was set on entry or some time read is strictly newer than the target's |
| Resolver.Examine | builder.py:68-73 | an existing dependency is only read and the world is unchanged; a missing one is resolved with `build_target`: the loop goes on exactly when that answers True, with its world and the dependency's time read again, and stops with its world when it answers False |
| Resolver.ScanSplit | builder.py:67-71 | dependencies are examined strictly left to right; once one fails to resolve, no later one is examined |
| Resolver.ScanAllPresent | builder.py:67-75 | when every dependency exists, the loop builds nothing, leaves the world unchanged and reads exactly their current times |
| Resolver.BuildDecision | builder.py:66-82 | the action runs exactly when the target is missing or some dependency's final time is strictly newer; otherwise the answer is True and the world is what the loop left |
| Resolver.UpToDate | builder.py:66-82 | an existing target whose dependencies all exist and are not newer answers True; nothing runs and nothing is logged |
| Resolver.Stale | builder.py:76-80 | a stale target whose dependencies exist answers exactly its action's result, with that action's effect; with no action it answers True and nothing changes |
| Resolver.DependencyFailure | builder.py:69-71 | a missing dependency whose resolution fails makes the target answer False; no later dependency is examined and the target's action does not run |
| Resolver.UnknownDependency | builder.py:63-85 | a missing dependency with no rule makes its parent answer False |
| Resolver.DependencyReread | builder.py:69-74 | the time the rebuild decision uses for a missing dependency is its time after its own resolution |
| Resolver.BuildFuelMonotone | builder.py:59-85 | an answer reached with some fuel is the same answer for any larger fuel |
| Resolver.ScanFuelMonotone | builder.py:67-75 | an answer of the dependency loop reached with some fuel is the same for any larger fuel |
| Driver.BuildEach | builder.py:154-156 | building no targets succeeds with nothing changed; building only extends the log |
| Driver.BuildEachSplit | builder.py:154-157 | building `a + b` builds `a`, and only if all of `a` succeeds goes on to `b` from the world `a` left; a failure stops everything after it |
| Driver.UnknownTargetStops | builder.py:154-156 | an unknown target among the arguments makes the run fail, and no target after it is built |
| Driver.ProcessTargets | builder.py:147-157 | exit code 1 when no argument is given and no first target exists; with no arguments, 0 iff the first target builds; with arguments, 0 iff every one builds in turn, stopping at the first failure; the code is always 0 or 1 |
| Vars.KeyValue | builder.py:166 | an argument with one `=` is exactly key `=` value, neither side contains `=`, and no other cut has that shape |
| Vars.Key | builder.py:166 | the key is the longest prefix without `=`, and the argument continues with `=` right after it |
| Vars.Value | builder.py:166 | the value is what follows the key and its `=`: key, `=` and value rebuild the argument |
| Vars.Remaining | builder.py:168 | an argument is kept iff it contains no `=` |
| Vars.RemainingAppend | builder.py:168 | filtering distributes over concatenation, so the kept arguments stay in their original order |
| Vars.RemainingUnchanged | builder.py:168 | the argument list comes back unchanged exactly when no argument contains `=` |
| Vars.Bindings | builder.py:165-167 | every name bound is the key of some `VAR=VAL` argument |
| Vars.BindingsKeys | builder.py:165-167 | a name is bound iff some argument binds it |
| Vars.BindingsLastWins | builder.py:165-167 | a name's value comes from the last argument that binds it |
| Vars.ProcessVars | builder.py:160-168 | an argument is kept iff it contains no `=`; a name is bound iff some argument binds it, and its value is that of the last argument binding it; kept arguments plus bindings are no more than the arguments; the list comes back unchanged iff nothing is a binding |
| Vars.ProcessVarsKeepsOrder | builder.py:168 | processing `a + b` keeps the kept arguments of `a` followed by those of `b`, so their order is the input order |
| Vars.ProcessVarsIdempotent | builder.py:160-168 | processing the remaining arguments again removes nothing and binds nothing |
| Scenarios.OneWordRun | builder.py:120-124 | a missing target with a one-word `run` action logs that word's parsed command, and answers per its flags and status |
| Scenarios.TouchChain | builder.py:59-85 | with `target` and `req` both missing and both with `touch()`: `req` is touched first at clock c, then `target` at c+1, and the answer is True |
| Scenarios.TouchMissingTarget | test_builder.py:60-64 | a missing target whose dependency exists is touched with `touch target` |
| Scenarios.FailingRun | test_builder.py:139-146 | `run('false')` makes its target fail when `false` exits non-zero |
| Scenarios.IgnoredFailure | builder.py:97-113 | `run('-false')` succeeds although `false` exits non-zero; the shell receives `false` |

## Left out

- Process execution and output: `commands.getstatusoutput`, `print(output)`, the `+ cmd` echo and the `*** Error` / `*** UNKNOWN TARGET` / `*** NO TARGET` messages (builder.py:84, 107-111, 149). The exit status is an oracle parameter. The echo is recorded only as a flag on the logged command.
- `os.path.getmtime` (builder.py:38): replaced by the timestamp map. Real timestamps are floats; the model uses integers.
- File effects of `run` commands: a shell command's effect on files is not modelled. Only `touch()` changes a timestamp. So `run('touch', 'x')` logs the command but leaves `x`'s time as it was.
- Injecting bindings into the caller's globals through `inspect.stack()`, and rewriting `sys.argv` in `init_vars` (builder.py:164-179): runtime reflection. `ProcessVars` returns the bindings as a map instead, and `ProcessTargets` takes the arguments as a parameter.
- Crashes: `cmd` on an empty line or on the line `-` raises IndexError (builder.py:99, 103). `split('=')` raises ValueError on an argument with several `=` (builder.py:166). Both are excluded by preconditions (`Parsable`, `Resolver.WellFormed`, `AtMostOneEq`), not given invented semantics.
- Resolver.Build: `WellFormed` requires that every registered action can be invoked, even for rules that never become stale. The source only crashes when such an action is actually invoked.
- Unbounded recursion on cyclic rule sets: the model cuts it off with `fuel` and answers `OutOfFuel`. `BuildFuelMonotone` ties every finished answer to the unbounded behaviour.
- Actions other than the three builders: a rules script can register any Python callable. Only `None`, `run` and `touch` actions are modelled. Registering the `touch` factory itself, rather than `touch()`, gives a rule that raises AttributeError when rebuilt: `build_target` calls it as `touch(target, reqs)` (builder.py:78), which becomes `run('touch', target, reqs)` (builder.py:138), and `reqs.split()` fails on the tuple (builder.py:120).
- `steps` and `end_rules`: test_builder.py:23-24 imports them from `builder`, but `builder.py` does not define them, so there is nothing to model. The exit-code tests that call `end_rules` (test_builder.py:117-155) are read against `process_targets`, which is what `Driver.ProcessTargets` and `Scenarios.FailingRun` model.
- `setup.py` (packaging) and `example.py` (a sample rules script): neither has logic of its own.
