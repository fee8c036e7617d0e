/**
 * Line splitting as `bufio.Reader.ReadBytes('\n')` does it: every call
 * returns the bytes up to and including the next '\n'; when no '\n' is
 * left it returns the remaining bytes together with an error.
 */
module Lines {

  import opened Options
  import opened Bytes

  /** s holds no '\n'. */
  predicate NoNewline(s: seq<byte>)
  {
    forall j :: 0 <= j < |s| ==> s[j] != NL
  }

  /** Index of the first '\n' of s, if any. */
  function FirstNewline(s: seq<byte>): (r: Option<nat>)
    ensures r.Some? ==> r.value < |s|
  {
    if s == [] then None
    else if s[0] == NL then Some(0)
    else
      match FirstNewline(s[1..])
      case None => None
      case Some(k) => Some(k + 1)
  }

  /** FirstNewline finds a '\n' with none before it, or reports that there
      is none at all. */
  lemma {:induction false} FirstNewlineSpec(s: seq<byte>)
    ensures FirstNewline(s).Some? ==>
              s[FirstNewline(s).value] == NL
              && forall j :: 0 <= j < FirstNewline(s).value ==> s[j] != NL
    ensures FirstNewline(s).None? ==> NoNewline(s)
    decreases |s|
  {
    if s != [] && s[0] != NL {
      FirstNewlineSpec(s[1..]);
      assert forall j :: 0 < j < |s| ==> s[j] == s[1..][j - 1];
    }
  }

  /** A complete line: it ends with '\n' and holds no other '\n'. */
  predicate IsLine(l: seq<byte>)
  {
    |l| > 0 && l[|l| - 1] == NL && NoNewline(l[..|l| - 1])
  }

  /** A byte string that ends where a line ends (or is empty). */
  predicate AtLineBoundary(s: seq<byte>)
  {
    s == [] || s[|s| - 1] == NL
  }

  /** What one ReadBytes('\n') call returns: a full line, or, at end of
      stream, the partial bytes that were left together with io.EOF. */
  datatype ReadResult = Line(line: seq<byte>) | Eof(partial: seq<byte>)

  /** ReadBytes('\n') applied to the unread bytes s. Every call that does
      not hit the end consumes at least one byte. */
  function NextLine(s: seq<byte>): (r: ReadResult)
    ensures r.Line? ==> 0 < |r.line| <= |s|
  {
    match FirstNewline(s)
    case None => Eof(s)
    case Some(k) => Line(s[..k + 1])
  }

  /** ReadBytes returns a complete line taken from the front of the bytes,
      or, when they hold no '\n', all of them. */
  lemma NextLineSpec(s: seq<byte>)
    ensures NextLine(s).Line? ==>
              IsLine(NextLine(s).line) && NextLine(s).line == s[..|NextLine(s).line|]
    ensures NextLine(s).Eof? ==> NextLine(s).partial == s && NoNewline(s)
  {
    FirstNewlineSpec(s);
  }

  /** ReadBytes returns the bytes up to the first '\n', delimiter included. */
  lemma NextLineAt(s: seq<byte>, k: nat)
    requires k < |s| && s[k] == NL
    requires forall j :: 0 <= j < k ==> s[j] != NL
    ensures NextLine(s) == Line(s[..k + 1])
  {
    FirstNewlineSpec(s);
  }

  /** Without a '\n', ReadBytes returns everything with io.EOF. */
  lemma NextLineNone(s: seq<byte>)
    requires NoNewline(s)
    ensures NextLine(s) == Eof(s)
  {
    FirstNewlineSpec(s);
  }

  /** A complete line at the front of s is exactly what ReadBytes returns. */
  lemma NextLineOfLine(l: seq<byte>, s: seq<byte>)
    requires IsLine(l) && |l| <= |s| && s[..|l|] == l
    ensures NextLine(s) == Line(l)
  {
    var k := |l| - 1;
    assert forall j :: 0 <= j < k ==> s[j] == l[..k][j];
    NextLineAt(s, k);
  }

  function Flatten(ls: seq<seq<byte>>): seq<byte>
  {
    if ls == [] then [] else ls[0] + Flatten(ls[1..])
  }

  predicate AllLines(ls: seq<seq<byte>>)
  {
    forall i :: 0 <= i < |ls| ==> IsLine(ls[i])
  }

  /** s is the lines ls, in order, followed by a trailing partial line. */
  predicate IsSplit(s: seq<byte>, ls: seq<seq<byte>>, rest: seq<byte>)
  {
    AllLines(ls) && NoNewline(rest) && Flatten(ls) + rest == s
  }

  /** The complete lines of s, in order, and the bytes after the last '\n':
      the lines successive ReadBytes calls return, and what the final call
      returns alongside io.EOF. */
  function SplitLines(s: seq<byte>): (seq<seq<byte>>, seq<byte>)
    decreases |s|
  {
    match NextLine(s)
    case Eof(p) => ([], p)
    case Line(l) =>
      var (ls, rest) := SplitLines(s[|l|..]);
      ([l] + ls, rest)
  }

  lemma FlattenCons(l: seq<byte>, ls: seq<seq<byte>>)
    ensures Flatten([l] + ls) == l + Flatten(ls)
  {
    assert ([l] + ls)[0] == l;
    assert ([l] + ls)[1..] == ls;
  }

  lemma AllLinesCons(l: seq<byte>, ls: seq<seq<byte>>)
    requires IsLine(l) && AllLines(ls)
    ensures AllLines([l] + ls)
  {
    forall i | 0 <= i < |[l] + ls| ensures IsLine(([l] + ls)[i]) {
      if i > 0 { assert ([l] + ls)[i] == ls[i - 1]; }
    }
  }

  /** SplitLines cuts s into complete lines and a partial line that
      together give back s. */
  lemma {:induction false} SplitLinesSpec(s: seq<byte>)
    ensures IsSplit(s, SplitLines(s).0, SplitLines(s).1)
    decreases |s|
  {
    match NextLine(s)
    case Eof(p) => NextLineSpec(s);
    case Line(l) =>
      var tail := s[|l|..];
      SplitLinesSpec(tail);
      SplitStep(s, l, SplitLines(tail).0, SplitLines(tail).1);
  }

  /** A line read from the front, then the split of what follows it, is a
      split of the whole. */
  lemma SplitStep(s: seq<byte>, l: seq<byte>, ls: seq<seq<byte>>, rest: seq<byte>)
    requires NextLine(s) == Line(l)
    requires IsSplit(s[|l|..], ls, rest)
    ensures IsSplit(s, [l] + ls, rest)
  {
    NextLineSpec(s);
    AllLinesCons(l, ls);
    FlattenCons(l, ls);
    assert s == l + s[|l|..];
  }

  /** The first line of a split is what ReadBytes returns, and the rest
      of the split is a split of the bytes after it. */
  lemma SplitUncons(s: seq<byte>, ls: seq<seq<byte>>, rest: seq<byte>)
    requires IsSplit(s, ls, rest) && ls != []
    ensures NextLine(s) == Line(ls[0])
    ensures IsSplit(s[|ls[0]|..], ls[1..], rest)
  {
    var l := ls[0];
    assert IsLine(l);
    FlattenCons(l, ls[1..]);
    assert [l] + ls[1..] == ls;
    assert s == l + (Flatten(ls[1..]) + rest);
    NextLineOfLine(l, s);
    assert s[|l|..] == Flatten(ls[1..]) + rest;
    assert AllLines(ls[1..]) by {
      forall i | 0 <= i < |ls[1..]| ensures IsLine(ls[1..][i]) {
        assert ls[1..][i] == ls[i + 1];
      }
    }
  }

  /** The split of a byte string into lines and trailing partial is unique. */
  lemma {:induction false} SplitLinesUnique(s: seq<byte>, ls: seq<seq<byte>>, rest: seq<byte>)
    requires IsSplit(s, ls, rest)
    ensures SplitLines(s) == (ls, rest)
    decreases |ls|
  {
    if ls == [] {
      assert s == rest;
      NextLineNone(s);
    } else {
      SplitUncons(s, ls, rest);
      SplitLinesUnique(s[|ls[0]|..], ls[1..], rest);
      assert [ls[0]] + ls[1..] == ls;
    }
  }

  lemma {:induction false} FlattenAppend(a: seq<seq<byte>>, b: seq<seq<byte>>)
    ensures Flatten(a + b) == Flatten(a) + Flatten(b)
    decreases |a|
  {
    if a == [] {
      assert a + b == b;
    } else {
      assert (a + b)[1..] == a[1..] + b;
      FlattenAppend(a[1..], b);
    }
  }

  /** A byte string that ends at a line boundary has no partial line. */
  lemma BoundaryHasNoPartial(s: seq<byte>)
    requires AtLineBoundary(s)
    ensures SplitLines(s).1 == []
  {
    SplitLinesSpec(s);
    var (ls, rest) := SplitLines(s);
    if rest != [] {
      assert false;
    }
  }

  lemma AllLinesAppend(la: seq<seq<byte>>, lb: seq<seq<byte>>)
    requires AllLines(la) && AllLines(lb)
    ensures AllLines(la + lb)
  {
    forall i | 0 <= i < |la + lb| ensures IsLine((la + lb)[i]) {
      if i < |la| { assert (la + lb)[i] == la[i]; } else { assert (la + lb)[i] == lb[i - |la|]; }
    }
  }

  /** Complete lines followed by a split give a split of the concatenation. */
  lemma JoinSplits(a: seq<byte>, la: seq<seq<byte>>, b: seq<byte>, lb: seq<seq<byte>>, rb: seq<byte>)
    requires IsSplit(a, la, []) && IsSplit(b, lb, rb)
    ensures IsSplit(a + b, la + lb, rb)
  {
    assert a == Flatten(la);
    FlattenAppend(la, lb);
    AllLinesAppend(la, lb);
  }

  /** Splitting two byte strings that meet at a line boundary: the lines of
      the first, then those of the second, then the second's partial. */
  lemma SplitLinesAppend(a: seq<byte>, b: seq<byte>)
    requires AtLineBoundary(a)
    ensures SplitLines(a + b) == (SplitLines(a).0 + SplitLines(b).0, SplitLines(b).1)
  {
    BoundaryHasNoPartial(a);
    SplitLinesSpec(a);
    SplitLinesSpec(b);
    JoinSplits(a, SplitLines(a).0, b, SplitLines(b).0, SplitLines(b).1);
    SplitLinesUnique(a + b, SplitLines(a).0 + SplitLines(b).0, SplitLines(b).1);
  }

  /** A single complete line splits into itself. */
  lemma SplitLinesOfLine(l: seq<byte>)
    requires IsLine(l)
    ensures SplitLines(l) == ([l], [])
  {
    assert Flatten([l]) == l + Flatten([]);
    SplitLinesUnique(l, [l], []);
  }

  /** Before the first read, the unread bytes are the whole body. */
  lemma SplitFromStart(body: seq<byte>)
    ensures IsSplit(body[0..], SplitLines(body).0, SplitLines(body).1)
  {
    SplitLinesSpec(body);
    assert body[0..] == body;
  }

  /** When ReadBytes meets the end of the bytes, no complete line was left. */
  lemma EofLeavesNoLine(s: seq<byte>, ls: seq<seq<byte>>, rest: seq<byte>)
    requires IsSplit(s, ls, rest) && NextLine(s).Eof?
    ensures ls == []
  {
    SplitLinesUnique(s, ls, rest);
  }

  /** The line ReadBytes returns is the first line of the split, and the
      bytes after it split into the remaining lines and the same partial
      line. */
  lemma ReadTakesFirstLine(s: seq<byte>, ls: seq<seq<byte>>, rest: seq<byte>, l: seq<byte>)
    requires IsSplit(s, ls, rest) && NextLine(s) == Line(l)
    ensures ls != [] && ls[0] == l
    ensures IsSplit(s[|l|..], ls[1..], rest)
  {
    SplitLinesUnique(s, ls, rest);
    SplitUncons(s, ls, rest);
  }

  /** The same, for a body read from byte position pos. */
  lemma ReadAt(body: seq<byte>, pos: nat, ls: seq<seq<byte>>, rest: seq<byte>, l: seq<byte>)
    requires pos <= |body| && IsSplit(body[pos..], ls, rest) && NextLine(body[pos..]) == Line(l)
    ensures pos + |l| <= |body|
    ensures ls != [] && ls[0] == l
    ensures IsSplit(body[pos + |l|..], ls[1..], rest)
  {
    ReadTakesFirstLine(body[pos..], ls, rest, l);
    assert body[pos..][|l|..] == body[pos + |l|..];
  }
}
