/**
 Whitespace tokenisation and space-joining of command text, as the builder
 uses them: `str.split()` with no separator (runs of whitespace separate
 words, leading and trailing whitespace is dropped) and `' '.join(...)`.
 The builder targets Python 2, whose byte strings treat exactly the six
 ASCII characters space, tab, line feed, carriage return, vertical tab and
 form feed as whitespace.
 */
module Text {

  predicate IsSpace(c: char) {
    c == ' ' || c == '\t' || c == '\n' || c == '\r' || c == 11 as char || c == 12 as char
  }

  /** A word: non-empty and free of whitespace, as every piece of `split()` is. */
  predicate IsWord(s: string) {
    |s| > 0 && forall i :: 0 <= i < |s| ==> !IsSpace(s[i])
  }

  predicate AllWords(ws: seq<string>) {
    forall i :: 0 <= i < |ws| ==> IsWord(ws[i])
  }

  /** The characters of `s` that are not whitespace, in order. */
  function Strip(s: string): string {
    if s == [] then [] else (if IsSpace(s[0]) then [] else [s[0]]) + Strip(s[1..])
  }

  /** All words laid end to end. */
  function Concat(ws: seq<string>): string {
    if ws == [] then [] else ws[0] + Concat(ws[1..])
  }

  /** Length of the leading run of non-whitespace characters. */
  function WordLen(s: string): (n: nat)
    ensures n <= |s|
    ensures forall i :: 0 <= i < n ==> !IsSpace(s[i])
    ensures n < |s| ==> IsSpace(s[n])
  {
    if s == [] || IsSpace(s[0]) then 0 else 1 + WordLen(s[1..])
  }

  /** Python's `s.split()`. */
  function Split(s: string): (ws: seq<string>)
    ensures AllWords(ws)
    decreases |s|
  {
    if s == [] then []
    else if IsSpace(s[0]) then Split(s[1..])
    else
      var n := WordLen(s);
      [s[..n]] + Split(s[n..])
  }

  /**
   Python's `' '.join(ws)`. The contract fixes the first word and the length;
   `JoinAppend` fixes the separator: joining two non-empty lists is joining
   each and putting one space between them.
   */
  function Join(ws: seq<string>): (s: string)
    ensures ws != [] ==> ws[0] <= s
    ensures ws != [] ==> |s| == |Concat(ws)| + |ws| - 1
  {
    if ws == [] then ""
    else if |ws| == 1 then ws[0]
    else ws[0] + " " + Join(ws[1..])
  }

  /** `sum([x.split() for x in args], [])`: every argument split, results concatenated. */
  function Tokens(args: seq<string>): (ts: seq<string>)
    ensures AllWords(ts)
  {
    if args == [] then [] else Split(args[0]) + Tokens(args[1..])
  }

  lemma StripAppend(a: string, b: string)
    ensures Strip(a + b) == Strip(a) + Strip(b)
  {
    if a != [] {
      assert (a + b)[0] == a[0];
      assert (a + b)[1..] == a[1..] + b;
      StripAppend(a[1..], b);
      var h := if IsSpace(a[0]) then [] else [a[0]];
      assert Strip(a + b) == h + (Strip(a[1..]) + Strip(b));
      assert h + (Strip(a[1..]) + Strip(b)) == (h + Strip(a[1..])) + Strip(b);
    } else {
      assert a + b == b;
    }
  }

  /** Joining is associative with one space at the seam, so every separator is a single space. */
  lemma {:induction false} JoinAppend(a: seq<string>, b: seq<string>)
    requires a != [] && b != []
    ensures Join(a + b) == Join(a) + " " + Join(b)
  {
    var ab := a + b;
    assert ab[0] == a[0] && |ab| >= 2;
    assert Join(ab) == a[0] + " " + Join(ab[1..]);
    if |a| == 1 {
      assert ab[1..] == b;
    } else {
      assert ab[1..] == a[1..] + b;
      JoinAppend(a[1..], b);
    }
  }

  lemma ConcatAppend(a: seq<string>, b: seq<string>)
    ensures Concat(a + b) == Concat(a) + Concat(b)
  {
    if a != [] {
      assert (a + b)[0] == a[0];
      assert (a + b)[1..] == a[1..] + b;
      ConcatAppend(a[1..], b);
      assert Concat(a + b) == a[0] + (Concat(a[1..]) + Concat(b));
    } else {
      assert a + b == b;
    }
  }

  lemma StripWord(w: string)
    requires forall i :: 0 <= i < |w| ==> !IsSpace(w[i])
    ensures Strip(w) == w
  {
    if w != [] {
      StripWord(w[1..]);
    }
  }

  /** Splitting loses only whitespace: the words, laid end to end, are the input minus its whitespace. */
  lemma {:induction false} SplitKeepsText(s: string)
    ensures Concat(Split(s)) == Strip(s)
    decreases |s|
  {
    if s == [] {
    } else if IsSpace(s[0]) {
      SplitKeepsText(s[1..]);
    } else {
      var n := WordLen(s);
      assert s == s[..n] + s[n..];
      StripAppend(s[..n], s[n..]);
      StripWord(s[..n]);
      SplitKeepsText(s[n..]);
      ConcatAppend([s[..n]], Split(s[n..]));
    }
  }

  /** A whitespace character ends the word in progress. */
  lemma WordLenStopsAtSpace(a: string, c: char, b: string)
    requires IsSpace(c)
    ensures WordLen(a + [c] + b) == WordLen(a)
  {
    var s := a + [c] + b;
    var m := WordLen(a);
    var n := WordLen(s);
    assert m < |a| ==> s[m] == a[m];
    assert m == |a| ==> s[m] == c;
    assert forall i :: 0 <= i < m ==> s[i] == a[i];
  }

  /** Splitting at a whitespace character splits the two sides independently. */
  lemma {:induction false} SplitAtSpace(a: string, c: char, b: string)
    requires IsSpace(c)
    ensures Split(a + [c] + b) == Split(a) + Split(b)
    decreases |a|
  {
    var s := a + [c] + b;
    if a == [] {
      assert s[1..] == b;
    } else if IsSpace(a[0]) {
      assert s[1..] == a[1..] + [c] + b;
      SplitAtSpace(a[1..], c, b);
    } else {
      var n := WordLen(a);
      WordLenStopsAtSpace(a, c, b);
      assert s[..n] == a[..n];
      assert s[n..] == a[n..] + [c] + b;
      SplitAtSpace(a[n..], c, b);
    }
  }

  lemma SplitOfWord(w: string)
    requires IsWord(w)
    ensures Split(w) == [w]
  {
    var n := WordLen(w);
    assert n == |w|;
    assert w[..n] == w;
    assert w[n..] == [];
  }

  /** Joining words with single spaces and splitting again gives the words back. */
  lemma {:induction false} SplitJoin(ws: seq<string>)
    requires AllWords(ws)
    ensures Split(Join(ws)) == ws
  {
    if ws == [] {
    } else if |ws| == 1 {
      SplitOfWord(ws[0]);
    } else {
      SplitAtSpace(ws[0], ' ', Join(ws[1..]));
      assert ws[0] + " " + Join(ws[1..]) == ws[0] + [' '] + Join(ws[1..]);
      SplitOfWord(ws[0]);
      SplitJoin(ws[1..]);
    }
  }

  /** The token list of several arguments is the token list of their space-joined text. */
  lemma {:induction false} TokensOfJoin(args: seq<string>)
    ensures Tokens(args) == Split(Join(args))
  {
    if args == [] {
    } else if |args| == 1 {
      assert Tokens(args) == Split(args[0]) + Tokens([]);
    } else {
      TokensOfJoin(args[1..]);
      assert args[0] + " " + Join(args[1..]) == args[0] + [' '] + Join(args[1..]);
      SplitAtSpace(args[0], ' ', Join(args[1..]));
    }
  }

  /** So `run('a b', 'c')` and `run('a', 'b', 'c')` tokenise identically. */
  lemma TokensDependOnlyOnJoin(a: seq<string>, b: seq<string>)
    requires Join(a) == Join(b)
    ensures Tokens(a) == Tokens(b)
  {
    TokensOfJoin(a);
    TokensOfJoin(b);
  }

  /** A joined list of words is empty exactly when the list is. */
  lemma JoinEmpty(ws: seq<string>)
    requires AllWords(ws)
    ensures Join(ws) == "" <==> ws == []
  {
    if |ws| == 1 {
      assert IsWord(ws[0]);
    }
  }
}
