/** JavaScript's `String.prototype.split('\n')` and the line structure of rendered text. */
module Text {

  /** `s.startsWith(p)`. */
  predicate StartsWith(s: string, p: string) {
    |p| <= |s| && s[..|p|] == p
  }

  /** A string holding no line feed. */
  predicate IsLine(s: string) {
    '\n' !in s
  }

  /** `s.split('\n')`: the maximal runs between line feeds, always at least one ("" splits to [""]). */
  function SplitLines(s: string): (r: seq<string>)
    ensures |r| >= 1
    ensures forall k :: 0 <= k < |r| ==> IsLine(r[k])
    decreases |s|
  {
    if s == [] then [""]
    else if s[0] == '\n' then [""] + SplitLines(s[1..])
    else
      var rest := SplitLines(s[1..]);
      [[s[0]] + rest[0]] + rest[1..]
  }

  /** `lines.join('\n')`. */
  function Join(lines: seq<string>): (r: string)
    requires |lines| >= 1
    decreases |lines|
  {
    if |lines| == 1 then lines[0] else lines[0] + "\n" + Join(lines[1..])
  }

  /** The text made of every line followed by a line feed. */
  function Terminated(lines: seq<string>): (r: string)
    decreases |lines|
  {
    if lines == [] then "" else lines[0] + "\n" + Terminated(lines[1..])
  }

  /** Splitting and joining undo each other: `split` loses nothing. */
  lemma {:induction false} JoinSplit(s: string)
    ensures Join(SplitLines(s)) == s
    decreases |s|
  {
    if s == [] {
    } else if s[0] == '\n' {
      JoinSplit(s[1..]);
      var rest := SplitLines(s[1..]);
      assert SplitLines(s) == [""] + rest;
      assert ([""] + rest)[1..] == rest;
      assert s == "\n" + s[1..];
    } else {
      JoinSplit(s[1..]);
      var rest := SplitLines(s[1..]);
      var r := [[s[0]] + rest[0]] + rest[1..];
      assert SplitLines(s) == r;
      if |rest| == 1 {
        assert s == [s[0]] + s[1..];
      } else {
        assert r[1..] == rest[1..];
        assert Join(rest) == rest[0] + "\n" + Join(rest[1..]);
        assert s == [s[0]] + s[1..];
      }
    }
  }

  /** Splitting at a line feed splits the two sides independently. */
  lemma {:induction false} SplitAtLineFeed(a: string, b: string)
    ensures SplitLines(a + "\n" + b) == SplitLines(a) + SplitLines(b)
    decreases |a|
  {
    if a == [] {
      assert a + "\n" + b == "\n" + b;
      assert ("\n" + b)[1..] == b;
    } else {
      var s := a + "\n" + b;
      assert s[0] == a[0];
      assert s[1..] == a[1..] + "\n" + b;
      SplitAtLineFeed(a[1..], b);
      if a[0] == '\n' {
      } else {
        var rest := SplitLines(a[1..]);
        assert SplitLines(s[1..]) == rest + SplitLines(b);
        assert (rest + SplitLines(b))[0] == rest[0];
        assert (rest + SplitLines(b))[1..] == rest[1..] + SplitLines(b);
      }
    }
  }

  /** A string with no line feed splits to itself. */
  lemma {:induction false} SplitLine(s: string)
    requires IsLine(s)
    ensures SplitLines(s) == [s]
    decreases |s|
  {
    if s != [] {
      SplitLine(s[1..]);
      assert [s[0]] + s[1..] == s;
    }
  }

  /** The first line of `p + x` starts with `p` when `p` holds no line feed. */
  lemma {:induction false} SplitFirstLine(p: string, x: string)
    requires IsLine(p)
    ensures SplitLines(p + x)[0] == p + SplitLines(x)[0]
    decreases |p|
  {
    if p != [] {
      var s := p + x;
      assert s[0] == p[0] && s[1..] == p[1..] + x;
      assert p[0] != '\n';
      SplitFirstLine(p[1..], x);
      var rest := SplitLines(s[1..]);
      assert SplitLines(s)[0] == [s[0]] + rest[0];
      assert [p[0]] + (p[1..] + SplitLines(x)[0]) == p + SplitLines(x)[0];
    } else {
      assert p + x == x;
    }
  }

  /** Joining lines that hold no line feed and splitting again gives the lines back. */
  lemma {:induction false} SplitJoin(lines: seq<string>)
    requires |lines| >= 1
    requires forall k :: 0 <= k < |lines| ==> IsLine(lines[k])
    ensures SplitLines(Join(lines)) == lines
    decreases |lines|
  {
    if |lines| == 1 {
      SplitLine(lines[0]);
    } else {
      SplitJoin(lines[1..]);
      SplitAtLineFeed(lines[0], Join(lines[1..]));
      SplitLine(lines[0]);
    }
  }

  /** Terminated text is the join of the lines followed by one empty line. */
  lemma {:induction false} TerminatedIsJoin(lines: seq<string>)
    ensures Terminated(lines) == Join(lines + [""])
    decreases |lines|
  {
    if lines != [] {
      TerminatedIsJoin(lines[1..]);
      assert (lines + [""])[1..] == lines[1..] + [""];
    }
  }

  lemma {:induction false} TerminatedAppend(a: seq<string>, b: seq<string>)
    ensures Terminated(a + b) == Terminated(a) + Terminated(b)
    decreases |a|
  {
    if a != [] {
      TerminatedAppend(a[1..], b);
      assert (a + b)[1..] == a[1..] + b;
    } else {
      assert a + b == b;
    }
  }
}
