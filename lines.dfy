/**
 * `text.split('\n')` and its inverse `lines.join('\n')` on the recognised
 * text of one image. As in JavaScript, splitting always yields at least one
 * piece: the empty text gives one empty line, and a trailing newline gives a
 * trailing empty line.
 */
module Lines {

  const Newline: char := '\n'

  /** True when `s` holds no newline, i.e. it is one line. */
  predicate IsLine(s: string)
  {
    forall k :: 0 <= k < |s| ==> s[k] != Newline
  }

  /** The pieces of `s` between newlines, in order. */
  function Split(s: string): (r: seq<string>)
    ensures |r| >= 1
    ensures forall i :: 0 <= i < |r| ==> IsLine(r[i])
  {
    if s == [] then [[]]
    else if s[0] == Newline then [[]] + Split(s[1..])
    else
      var rest := Split(s[1..]);
      [[s[0]] + rest[0]] + rest[1..]
  }

  /** The lines glued back together with a newline between neighbours. */
  function Join(lines: seq<string>): string
    requires |lines| >= 1
  {
    if |lines| == 1 then lines[0] else lines[0] + ([Newline] + Join(lines[1..]))
  }

  lemma Associative(a: string, b: string, c: string)
    ensures (a + b) + c == a + (b + c)
  {
  }

  /** Putting a character in front of the first line puts it in front of the join. */
  lemma JoinPrepend(c: char, lines: seq<string>)
    requires |lines| >= 1
    ensures Join([[c] + lines[0]] + lines[1..]) == [c] + Join(lines)
  {
    var first, rest := lines[0], lines[1..];
    var l := [[c] + first] + rest;
    if rest == [] {
      assert l == [[c] + first] && lines == [first];
    } else {
      assert l[0] == [c] + first && l[1..] == rest && |l| > 1;
      assert Join(lines) == first + ([Newline] + Join(rest));
      Associative([c], first, [Newline] + Join(rest));
    }
  }

  /** Joining the pieces of a split gives the original text back. */
  lemma {:induction false} JoinSplit(s: string)
    ensures Join(Split(s)) == s
  {
    if s != [] {
      JoinSplit(s[1..]);
      if s[0] == Newline {
        assert Split(s)[1..] == Split(s[1..]);
      } else {
        JoinPrepend(s[0], Split(s[1..]));
      }
      assert [s[0]] + s[1..] == s;
    }
  }

  /** A single line splits into itself. */
  lemma {:induction false} SplitLine(a: string)
    requires IsLine(a)
    ensures Split(a) == [a]
  {
    if a != [] {
      SplitLine(a[1..]);
      assert [a[0]] + a[1..] == a;
    }
  }

  /** A line followed by a newline splits off as the first piece. */
  lemma {:induction false} SplitLineThen(a: string, b: string)
    requires IsLine(a)
    ensures Split(a + ([Newline] + b)) == [a] + Split(b)
  {
    if a == [] {
      assert a + ([Newline] + b) == [Newline] + b;
      assert ([Newline] + b)[1..] == b;
    } else {
      var s := a + ([Newline] + b);
      assert s[0] == a[0] && s[1..] == a[1..] + ([Newline] + b);
      SplitLineThen(a[1..], b);
      assert [a[0]] + a[1..] == a;
    }
  }

  /** Splitting a join of lines gives those lines back. */
  lemma {:induction false} SplitJoin(lines: seq<string>)
    requires |lines| >= 1
    requires forall i :: 0 <= i < |lines| ==> IsLine(lines[i])
    ensures Split(Join(lines)) == lines
  {
    if |lines| == 1 {
      SplitLine(lines[0]);
    } else {
      SplitJoin(lines[1..]);
      SplitLineThen(lines[0], Join(lines[1..]));
      assert [lines[0]] + lines[1..] == lines;
    }
  }
}
