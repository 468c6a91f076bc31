/**
 The two modifier flags `cmd` reads off the front of a command line
 (builder.py:97-105): a leading `-` means "ignore the exit status", and only
 after that one is stripped, a leading `@` means "do not echo the command".
 */
module Commands {

  /** A command line after flag parsing: the text handed to the shell and the two flags. */
  datatype Command = Command(line: string, ignoreFailure: bool, echo: bool)

  /**
   `cmd` indexes `cmdline[0]` before and, after dropping a `-`, again; an
   empty line, or the line "-", raises IndexError there. Every other line parses.
   */
  predicate Parsable(cmdline: string) {
    cmdline != "" && cmdline != "-"
  }

  /** The flag characters that `c` stands for, in the order `cmd` reads them. */
  function FlagPrefix(c: Command): string {
    (if c.ignoreFailure then "-" else "") + (if c.echo then "" else "@")
  }

  /** The command line that parses to `c`: its flags followed by its text. */
  function Render(c: Command): string {
    FlagPrefix(c) + c.line
  }

  /**
   The commands that some line parses to: an echoed command's text is
   non-empty and cannot start with `@`, nor with `-` unless a `-` was
   already consumed.
   */
  predicate Canonical(c: Command) {
    c.echo ==> c.line != "" && c.line[0] != '@' && (!c.ignoreFailure ==> c.line[0] != '-')
  }

  /** Flag parsing of `cmd` (builder.py:97-105). */
  function Parse(cmdline: string): (c: Command)
    requires Parsable(cmdline)
    ensures c.ignoreFailure <==> cmdline[0] == '-'
    ensures FlagPrefix(c) + c.line == cmdline
    ensures !c.echo <==> cmdline[if c.ignoreFailure then 1 else 0] == '@'
    ensures Canonical(c)
  {
    var ignore := cmdline[0] == '-';
    var rest := if ignore then cmdline[1..] else cmdline;
    if rest[0] == '@' then Command(rest[1..], ignore, false) else Command(rest, ignore, true)
  }

  /** `cmd` reports success when the failure is ignored or the status is zero (builder.py:110-113). */
  function Succeeds(c: Command, status: int): bool {
    c.ignoreFailure || status == 0
  }

  /** Rendering a parsed line gives the line back: parsing loses nothing. */
  lemma RenderParse(cmdline: string)
    requires Parsable(cmdline)
    ensures Render(Parse(cmdline)) == cmdline
  {
  }

  /** Parsing a rendered canonical command gives the command back. */
  lemma ParseRender(c: Command)
    requires Canonical(c)
    ensures Parsable(Render(c))
    ensures Parse(Render(c)) == c
  {
    var s := Render(c);
    assert |s| == |FlagPrefix(c)| + |c.line|;
    assert |s| >= 2 || (|s| == 1 && s[0] != '-') by {
      if c.echo {
        assert c.line != "";
        if !c.ignoreFailure {
          assert s[0] == c.line[0];
        }
      }
    }
    if c.ignoreFailure {
      assert s[1..] == (if c.echo then "" else "@") + c.line;
    }
  }

  /** `-@x` sets both flags; `@-x` only suppresses the echo and leaves `-x` to the shell. */
  lemma FlagOrder(x: string)
    ensures Parse("-@" + x) == Command(x, true, false)
    ensures Parse("@-" + x) == Command("-" + x, false, false)
  {
    assert ("-@" + x)[1..] == "@" + x;
    assert ("@" + x)[1..] == x;
    assert ("@-" + x)[1..] == "-" + x;
  }
}
