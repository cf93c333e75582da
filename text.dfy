/**
  The two string operations the descriptor format rests on: strings.Join,
  which the renderer uses, and splitting at '\n', its inverse.
 */
module Text {

  /** strings.Join: the parts, with sep between each consecutive pair. */
  function JoinWith(parts: seq<string>, sep: string): (s: string)
    ensures |parts| == 0 ==> s == ""
    ensures |parts| == 1 ==> s == parts[0]
    decreases |parts|
  {
    if |parts| == 0 then ""
    else if |parts| == 1 then parts[0]
    else parts[0] + sep + JoinWith(parts[1..], sep)
  }

  /** The lines, each followed by '\n'. */
  function Lines(lines: seq<string>): (s: string)
    ensures |lines| > 0 ==> |s| > 0 && s[|s| - 1] == '\n'
    decreases |lines|
  {
    if |lines| == 0 then "" else lines[0] + "\n" + Lines(lines[1..])
  }

  /** Joining with '\n' and adding one final '\n' terminates every line. */
  lemma {:induction false} JoinThenNewline(lines: seq<string>)
    requires |lines| > 0
    ensures JoinWith(lines, "\n") + "\n" == Lines(lines)
    decreases |lines|
  {
    if |lines| > 1 {
      JoinThenNewline(lines[1..]);
    }
  }

  /** Index of the first c in s, or -1 when s has none. */
  function IndexOf(s: string, c: char): (i: int)
    ensures c !in s ==> i == -1
    ensures c in s ==> 0 <= i < |s| && s[i] == c && c !in s[..i]
    decreases |s|
  {
    if |s| == 0 then -1
    else if s[0] == c then 0
    else
      assert s == [s[0]] + s[1..];
      var j := IndexOf(s[1..], c);
      if j < 0 then -1
      else
        assert s[..j + 1] == [s[0]] + s[1..][..j];
        j + 1
  }

  /** strings.Split(s, "\n"): the pieces of s between its newlines. */
  function SplitLines(s: string): (lines: seq<string>)
    ensures |lines| >= 1
    decreases |s|
  {
    var i := IndexOf(s, '\n');
    if i < 0 then [s] else [s[..i]] + SplitLines(s[i + 1..])
  }

  /** Splitting a text whose first line is a peels that line off. */
  lemma SplitLinesCons(a: string, b: string)
    requires '\n' !in a
    ensures SplitLines(a + "\n" + b) == [a] + SplitLines(b)
  {
    var s := a + "\n" + b;
    assert s[|a|] == '\n';
    assert s[..|a|] == a;
    var i := IndexOf(s, '\n');
    assert i == |a|;
    assert s[|a| + 1..] == b;
  }

  /** Joining with '\n' and splitting again gives back lines without newlines. */
  lemma {:induction false} SplitJoin(parts: seq<string>)
    requires |parts| >= 1
    requires forall k :: 0 <= k < |parts| ==> '\n' !in parts[k]
    ensures SplitLines(JoinWith(parts, "\n")) == parts
    decreases |parts|
  {
    if |parts| > 1 {
      SplitLinesCons(parts[0], JoinWith(parts[1..], "\n"));
      SplitJoin(parts[1..]);
    }
  }

  /** Newline-terminated lines split into those lines and one last, empty piece. */
  lemma {:induction false} SplitTerminated(lines: seq<string>)
    requires forall k :: 0 <= k < |lines| ==> '\n' !in lines[k]
    ensures SplitLines(Lines(lines)) == lines + [""]
    decreases |lines|
  {
    if |lines| == 0 {
      assert IndexOf("", '\n') == -1;
    } else {
      var rest := lines[1..];
      var head := lines[0];
      var tailText := Lines(rest);
      assert Lines(lines) == head + "\n" + tailText;
      SplitLinesCons(head, tailText);
      SplitTerminated(rest);
      ConsAppend(lines, "");
    }
  }

  /** A non-empty sequence with one more element, regrouped around its head. */
  lemma ConsAppend<T>(xs: seq<T>, y: T)
    requires |xs| > 0
    ensures xs + [y] == [xs[0]] + (xs[1..] + [y])
  {
  }

  /** Splitting at '\n' and joining again gives back any text. */
  lemma {:induction false} JoinSplit(s: string)
    ensures JoinWith(SplitLines(s), "\n") == s
    decreases |s|
  {
    var i := IndexOf(s, '\n');
    if i >= 0 {
      var rest := SplitLines(s[i + 1..]);
      JoinSplit(s[i + 1..]);
      assert ([s[..i]] + rest)[1..] == rest;
      assert s == s[..i] + "\n" + s[i + 1..];
    }
  }
}
