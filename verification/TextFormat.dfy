/** Line wrapping for the terminal (agent/tui.go) and size formatting (agent/helpers.go). */
module TextFormat {
  import opened Arithmetic
  import opened Bytes

  // ---------- Wrapping ----------

  const SPACE: byte := 32
  const NEWLINE: byte := 10

  type Text = seq<byte>

  function Spaces(n: nat): (t: Text)
    ensures |t| == n
  {
    seq(n, _ => SPACE)
  }

  /** `strings.Split(s, "\n")`. */
  function Lines(s: Text): (ls: seq<Text>)
    ensures ls != []
    ensures forall l <- ls :: NEWLINE !in l
  {
    if s == [] then [[]]
    else
      var rest := Lines(s[1..]);
      if s[0] == NEWLINE then [[]] + rest else [[s[0]] + rest[0]] + rest[1..]
  }

  function Unlines(ls: seq<Text>): Text
    requires ls != []
  {
    if |ls| == 1 then ls[0] else ls[0] + [NEWLINE] + Unlines(ls[1..])
  }

  lemma {:induction false} LinesSplit(s: Text)
    ensures Unlines(Lines(s)) == s
  {
    if s != [] {
      LinesSplit(s[1..]);
      var rest := Lines(s[1..]);
      if s[0] == NEWLINE {
        assert ([[]] + rest)[1..] == rest;
      } else {
        assert ([[s[0]] + rest[0]] + rest[1..])[1..] == rest[1..];
        assert s == [s[0]] + s[1..];
      }
    }
  }

  /** `strings.LastIndex(s, " ")`. */
  function LastSpace(s: Text): (i: int)
    ensures -1 <= i < |s|
    ensures i >= 0 ==> s[i] == SPACE
    ensures forall j :: i < j < |s| ==> s[j] != SPACE
  {
    if s == [] then -1
    else if s[|s| - 1] == SPACE then |s| - 1
    else LastSpace(s[..|s| - 1])
  }

  /** Where an overlong line is cut: at the last space in the second half of what fits, else after all of it. */
  function Chop(line: Text, limit: nat): (chop: nat)
    requires |line| > limit
    ensures limit / 2 <= chop <= limit
    ensures chop < limit ==> line[chop] == SPACE
    ensures forall j :: limit / 2 <= j < limit && line[j] == SPACE ==> j <= chop < limit
  {
    var idx := LastSpace(line[..limit]);
    if idx >= limit / 2 then idx else limit
  }

  /** What is left of the line, indented. */
  function Continued(line: Text, limit: nat): (rest: Text)
    requires |line| > limit
    ensures |rest| == |line| - Chop(line, limit) + 6
  {
    Spaces(6) + line[Chop(line, limit)..]
  }

  function Pieces(line: Text, limit: nat): seq<Text>
    requires limit >= 14
    decreases |line|
  {
    if |line| > limit then [line[..Chop(line, limit)]] + Pieces(Continued(line, limit), limit)
    else if line == [] then []
    else [line]
  }

  function AllPieces(lines: seq<Text>, limit: nat): seq<Text>
    requires limit >= 14
  {
    if lines == [] then [] else AllPieces(lines[..|lines| - 1], limit) + Pieces(lines[|lines| - 1], limit)
  }

  /** Terminates for every text, which takes a limit of at least 14 (`WrappingEndsIff`). */
  method WrapLines(s: Text, limit: nat) returns (out: seq<Text>)
    requires limit >= 14
    ensures out == AllPieces(Lines(s), limit) && Wraps(out, Lines(s), limit)
  {
    out := WrapEach(Lines(s), limit);
    AllPiecesWrap(Lines(s), limit);
  }

  // The loop over the lines.
  method WrapEach(lines: seq<Text>, limit: nat) returns (out: seq<Text>)
    requires limit >= 14
    ensures out == AllPieces(lines, limit)
  {
    out := [];
    for i := 0 to |lines|
      invariant out == AllPieces(lines[..i], limit)
    {
      var line := lines[i];
      ghost var before := out;
      while |line| > limit
        invariant before + Pieces(lines[i], limit) == out + Pieces(line, limit)
        decreases |line|
      {
        var chop := limit;
        var idx := LastSpace(line[..limit]);
        if idx >= limit / 2 {
          chop := idx;
        }
        ghost var whole := line;
        out := out + [line[..chop]];
        line := line[chop..];
        if |line| > 0 {
          line := Spaces(6) + line;
        }
        assert line == Continued(whole, limit);
      }
      if line != [] {
        out := out + [line];
      }
      assert out == before + Pieces(lines[i], limit);
      assert lines[..i + 1][..i] == lines[..i];
    }
    assert lines[..|lines|] == lines;
  }

  /** The pieces of one line put together again: the indent of each continuation stripped. */
  function Joined(pieces: seq<Text>): Text
    requires forall i :: 1 <= i < |pieces| ==> |pieces[i]| >= 6
    decreases |pieces|
  {
    if pieces == [] then []
    else if |pieces| == 1 then pieces[0]
    else Joined(pieces[..|pieces| - 1]) + pieces[|pieces| - 1][6..]
  }

  ghost predicate IsWrapping(pieces: seq<Text>, line: Text, limit: nat) {
    && (forall p <- pieces :: |p| <= limit && p != [])
    && (forall i :: 1 <= i < |pieces| ==> |pieces[i]| >= 6 && pieces[i][..6] == Spaces(6))
    && Joined(pieces) == line
  }

  lemma {:induction false} JoinedCons(first: Text, pieces: seq<Text>)
    requires pieces != [] && forall i :: 0 <= i < |pieces| ==> |pieces[i]| >= 6
    ensures |Joined(pieces)| >= 6 && Joined([first] + pieces) == first + Joined(pieces)[6..]
    decreases |pieces|
  {
    var n := |pieces|;
    if n == 1 {
      assert ([first] + pieces)[..1] == [first] && ([first] + pieces)[1] == pieces[0];
    } else {
      var init, last := pieces[..n - 1], pieces[n - 1][6..];
      JoinedCons(first, init);
      JoinedSnoc([first] + pieces, [first] + init, pieces[n - 1]);
      DropSum(Joined(init), last, 6);
      Associate(first, Joined(init)[6..], last);
    }
  }

  lemma JoinedSnoc(pieces: seq<Text>, init: seq<Text>, last: Text)
    requires pieces == init + [last] && init != [] && |last| >= 6 && forall i :: 1 <= i < |pieces| ==> |pieces[i]| >= 6
    ensures (forall i :: 1 <= i < |init| ==> |init[i]| >= 6) && Joined(pieces) == Joined(init) + last[6..]
  {
    assert pieces[..|pieces| - 1] == init;
  }

  lemma DropSum(a: Text, b: Text, k: nat)
    requires k <= |a|
    ensures (a + b)[k..] == a[k..] + b
  {
  }

  /** A piece cut off in front of a wrapped rest that begins with the indent. */
  lemma WrapCons(first: Text, tail: seq<Text>, after: Text, limit: nat)
    requires IsWrapping(tail, Spaces(6) + after, limit) && 0 < |first| <= limit
    requires tail != [] && |tail[0]| >= 6 && tail[0][..6] == Spaces(6)
    ensures IsWrapping([first] + tail, first + after, limit)
  {
    var all := [first] + tail;
    forall i | 0 <= i < |tail| ensures |tail[i]| >= 6 && tail[i][..6] == Spaces(6) && all[i + 1] == tail[i] {
    }
    JoinedCons(first, tail);
    assert (Spaces(6) + after)[6..] == after;
  }

  lemma ShortLineWraps(line: Text, limit: nat)
    requires |line| <= limit
    ensures IsWrapping(if line == [] then [] else [line], line, limit)
  {
  }

  /** A continuation's first piece keeps the whole indent. */
  lemma FirstPiece(after: Text, limit: nat)
    requires limit >= 14 && after != []
    ensures var ps := Pieces(Spaces(6) + after, limit); ps != [] && |ps[0]| >= 6 && ps[0][..6] == Spaces(6)
  {
    var line := Spaces(6) + after;
    if |line| > limit {
      assert line[..Chop(line, limit)][..6] == Spaces(6);
    }
  }

  /** Every piece fits, every continuation is indented by six spaces, and without the indents the pieces give
      back the line, byte for byte. */
  lemma {:induction false} PiecesWrap(line: Text, limit: nat)
    requires limit >= 14
    ensures IsWrapping(Pieces(line, limit), line, limit)
    decreases |line|
  {
    if |line| > limit {
      var chop := Chop(line, limit);
      var first, after := line[..chop], line[chop..];
      var tail := Pieces(Spaces(6) + after, limit);
      assert Pieces(line, limit) == [first] + tail && first + after == line;
      PiecesWrap(Spaces(6) + after, limit);
      FirstPiece(after, limit);
      WrapCons(first, tail, after, limit);
    } else {
      ShortLineWraps(line, limit);
    }
  }

  /** A place to cut an overlong line: the last space in the second half of its first `limit` bytes, or after all of
      them if there is none. */
  predicate IsCut(line: Text, limit: nat, k: nat)
    requires |line| > limit
  {
    && limit / 2 <= k <= limit && (k < limit ==> line[k] == SPACE)
    && forall j :: limit / 2 <= j < limit && line[j] == SPACE ==> j <= k < limit
  }

  /** Each piece but the last ends at such a place of what is left of the line. */
  ghost predicate WellCut(pieces: seq<Text>, line: Text, limit: nat)
    requires limit >= 14
    decreases |line|
  {
    if |line| <= limit then pieces == if line == [] then [] else [line]
    else
      && pieces != [] && |pieces[0]| <= limit && IsCut(line, limit, |pieces[0]|)
      && pieces[0] == line[..|pieces[0]|]
      && WellCut(pieces[1..], Spaces(6) + line[|pieces[0]|..], limit)
  }

  lemma {:induction false} PiecesWellCut(line: Text, limit: nat)
    requires limit >= 14
    ensures WellCut(Pieces(line, limit), line, limit)
    decreases |line|
  {
    if |line| > limit {
      PiecesWellCut(Continued(line, limit), limit);
    }
  }

  /** The whole output, line by line: the wrappings of the input lines one after the other, an empty line
      leaving nothing. */
  ghost predicate Wraps(out: seq<Text>, lines: seq<Text>, limit: nat)
    requires limit >= 14
    decreases |lines|
  {
    if lines == [] then out == []
    else exists k :: 0 <= k <= |out| && Wraps(out[..k], lines[..|lines| - 1], limit)
                     && IsWrapping(out[k..], lines[|lines| - 1], limit) && WellCut(out[k..], lines[|lines| - 1], limit)
  }

  lemma {:induction false} AllPiecesWrap(lines: seq<Text>, limit: nat)
    requires limit >= 14
    ensures Wraps(AllPieces(lines, limit), lines, limit)
    decreases |lines|
  {
    if lines != [] {
      var init, last := lines[..|lines| - 1], lines[|lines| - 1];
      AllPiecesWrap(init, limit);
      PiecesWrap(last, limit);
      PiecesWellCut(last, limit);
      var out, k := AllPieces(lines, limit), |AllPieces(init, limit)|;
      assert out[..k] == AllPieces(init, limit) && out[k..] == Pieces(last, limit);
    }
  }

  // One round of the inner loop, or nothing once the line fits.
  ghost function Rounds(line: Text, limit: nat, k: nat): Text {
    if k == 0 then line
    else
      var l := Rounds(line, limit, k - 1);
      if |l| > limit then Continued(l, limit) else l
  }

  ghost predicate Ends(line: Text, limit: nat) {
    exists k :: |Rounds(line, limit, k)| <= limit
  }

  lemma {:induction false} Shrinks(line: Text, limit: nat, k: nat)
    requires limit >= 14
    ensures |Rounds(line, limit, k)| <= limit || |Rounds(line, limit, k)| + k <= |line|
  {
    if k > 0 {
      Shrinks(line, limit, k - 1);
    }
  }

  /** A line that the loop leaves as long as it was: 7 spaces before a word as long as the limit. */
  function Stuck(limit: nat): (t: Text)
    ensures |t| == 7 + limit
  {
    Spaces(7) + seq(limit, _ => 120)
  }

  lemma StuckRepeats(limit: nat)
    requires 7 <= limit < 14
    ensures Continued(Stuck(limit), limit) == Stuck(limit)
  {
    var t := Stuck(limit);
    assert t[..limit][6] == SPACE;
    assert forall j :: 6 < j < limit ==> t[..limit][j] == 120;
    assert LastSpace(t[..limit]) == 6;
    assert Spaces(6) + t[6..] == t;
  }

  lemma {:induction false} NeverEnds(limit: nat, k: nat)
    requires limit < 14
    ensures limit >= 7 ==> Rounds(Stuck(limit), limit, k) == Stuck(limit)
    ensures |Rounds(Stuck(limit), limit, k)| > limit
  {
    if k > 0 {
      NeverEnds(limit, k - 1);
      if limit >= 7 {
        StuckRepeats(limit);
      }
    }
  }

  /** The inner loop ends on every line exactly when the limit is at least 14. */
  lemma WrappingEndsIff(limit: nat)
    ensures (forall line: Text :: Ends(line, limit)) <==> limit >= 14
  {
    if limit >= 14 {
      forall line: Text ensures Ends(line, limit) {
        Shrinks(line, limit, |line|);
        assert |Rounds(line, limit, |line|)| <= limit;
      }
    } else {
      forall k: nat ensures |Rounds(Stuck(limit), limit, k)| > limit {
        NeverEnds(limit, k);
      }
      assert !Ends(Stuck(limit), limit);
    }
  }

  // ---------- Sizes ----------

  const UNITS: string := "KMGTPE"

  /** `n` bytes as `n / div` of a unit: `div` is the largest power of 1024 not above `n`, and never leaves
      the range of an int64; the unit is always one of the six. */
  method HumanSize(n: int) returns (plain: bool, div: int, unit: char)
    requires n < 0x8000_0000_0000_0000
    ensures plain == (n < 1024)
    ensures !plain ==> exists exp: nat ::
      exp < 6 && unit == "KMGTPE"[exp] && div == Pow(1024, exp + 1) && div <= n && n < 1024 * div
  {
    plain, div, unit := n < 1024, 1, ' ';
    if plain {
      return;
    }
    div := 1024;
    var exp := 0;
    var d := n / 1024;
    assert Pow(1024, 1) == 1024 * Pow(1024, 0);
    while d >= 1024
      invariant exp >= 0 && d >= 1 && div == Pow(1024, exp + 1)
      invariant div * d <= n && n < div * d + div
    {
      Quotient(div, d, n);
      div := div * 1024;
      exp := exp + 1;
      d := d / 1024;
    }
    assert div <= n && n < 1024 * div by {
      Multiples(div, 1, d);
      Multiples(div, d, 1);
      Multiples(div, d, 1024);
    }
    SmallExponent(exp, n);
    unit := UNITS[exp];
  }

  lemma Quotient(div: int, d: int, n: int)
    requires div > 0 && d >= 1024 && div * d <= n < div * d + div
    ensures var e := d / 1024; e >= 1 && (div * 1024) * e <= n < (div * 1024) * e + div * 1024
  {
    var e, r := d / 1024, d % 1024;
    assert div * d == (div * 1024) * e + div * r;
    Multiples(div, r, 1024);
  }

  lemma {:induction false} PowGrows(a: nat, b: nat)
    requires a <= b
    ensures Pow(1024, a) <= Pow(1024, b)
    decreases b
  {
    if a < b {
      PowGrows(a, b - 1);
    }
  }

  lemma SmallExponent(exp: nat, n: int)
    requires Pow(1024, exp + 1) <= n < 0x8000_0000_0000_0000
    ensures exp < 6
  {
    assert Pow(1024, 2) == 1048576;
    assert Pow(1024, 4) == 1048576 * 1048576;
    assert Pow(1024, 7) == 1048576 * 1048576 * 1048576 * 1024;
    if exp >= 6 {
      PowGrows(7, exp + 1);
    }
  }
}
