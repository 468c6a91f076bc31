/**
 What the builder sees of the machine it runs on: file modification times,
 a clock, the shell's exit statuses, and the command lines it has executed.
 The real program asks the operating system for each of these; here the
 timestamps are a map, the shell is a function from command line to exit
 status, and executed commands are appended to a log.
 */
module Host {
  import opened Text
  import opened Commands

  /**
   `fs` maps a path to its modification time; `clock` is the time a file
   touched now receives; `log` lists every command handed to the shell.
   */
  datatype World = World(fs: map<string, int>, clock: int, log: seq<Command>)

  /** Exit status the shell returns for a command line. */
  type Shell = string -> int

  /** The timestamp `mtime` reports for a file that does not exist. */
  const Missing: int := -1

  /** `mtime` (builder.py:33-40): the file's time, or the sentinel when it is absent. */
  function MTime(fs: map<string, int>, path: string): int
  {
    if path in fs then fs[path] else Missing
  }

  /** The boolean an action returns, and the world after it. */
  datatype Step = Step(ok: bool, world: World)

  /** The world only ever grows: the log is extended and the clock does not go back. */
  predicate Extends(w: World, w': World) {
    w.log <= w'.log && w.clock <= w'.clock
  }

  /**
   `cmd(*args)` (builder.py:97-113): join the arguments with spaces, parse
   the flags, run the remaining line in the shell, and report success unless
   the status is non-zero and not ignored. Running a command advances the clock.
   */
  function Cmd(args: seq<string>, shell: Shell, w: World): (r: Step)
    requires Parsable(Join(args))
    ensures |r.world.log| == |w.log| + 1 && w.log <= r.world.log
    ensures Render(r.world.log[|w.log|]) == Join(args) && Canonical(r.world.log[|w.log|])
    ensures r.ok <==> r.world.log[|w.log|].ignoreFailure || shell(r.world.log[|w.log|].line) == 0
    ensures Join(args)[0] == '-' ==> r.ok
    ensures r.world.fs == w.fs && r.world.clock == w.clock + 1
  {
    var c := Parse(Join(args));
    RenderParse(Join(args));
    Step(Succeeds(c, shell(c.line)), World(w.fs, w.clock + 1, w.log + [c]))
  }
}
