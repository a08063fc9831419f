/**
 * The code-block pattern of presetation/chat/commands.go,
 * "(?s)```(?:bash|shell)?\n(.*?)\n```", and Go's FindAllStringSubmatch over
 * it, written out as a scanner over byte offsets.
 *
 * At a given offset the three openings "```bash\n", "```shell\n" and "```\n"
 * exclude one another (they differ in the byte after the backticks), so the
 * optional tag never needs to backtrack. The lazy body ends at the first
 * "\n```" at or after the body's start. A search resumes where the previous
 * match ended.
 */
module Fences {
  import opened Bytes
  import opened Wrappers

  /** A match: the whole block is [start, bodyEnd + 4), the captured body [bodyStart, bodyEnd). */
  datatype Block = Block(start: nat, bodyStart: nat, bodyEnd: nat)

  const Closing := "\n```"

  /** Three backticks start at `i`. */
  predicate TicksAt(s: string, i: int) {
    0 <= i && i + 3 <= |s| && s[i] == '`' && s[i + 1] == '`' && s[i + 2] == '`'
  }

  /** The closing "\n```" starts at `j`. */
  predicate ClosingAt(s: string, j: int) {
    0 <= j && j + 4 <= |s| && s[j] == '\n' && TicksAt(s, j + 1)
  }

  lemma ClosingAtOccurs(s: string, j: int)
    ensures ClosingAt(s, j) <==> OccursAt(s, Closing, j)
  {
    if OccursAt(s, Closing, j) {
      assert s[j..j + 4][0] == s[j] && s[j..j + 4][1] == s[j + 1];
      assert s[j..j + 4][2] == s[j + 2] && s[j..j + 4][3] == s[j + 3];
    }
    if ClosingAt(s, j) {
      assert s[j..j + 4] == Closing;
    }
  }

  /** The first closing at or after `k`, or -1. */
  function ClosingFrom(s: string, k: nat): (r: int)
    decreases |s| - k
    ensures r == -1 || (k <= r && ClosingAt(s, r))
    ensures r == -1 ==> forall j | k <= j :: !ClosingAt(s, j)
    ensures r != -1 ==> forall j | k <= j < r :: !ClosingAt(s, j)
  {
    if k + 4 > |s| then -1
    else if ClosingAt(s, k) then k
    else ClosingFrom(s, k + 1)
  }

  /** Where the body begins when an opening fence starts at `i`: after "```bash\n", "```shell\n" or "```\n". */
  function OpeningAt(s: string, i: nat): (r: Option<nat>)
    ensures r.Some? ==> TicksAt(s, i) && 1 <= r.value <= |s| && s[r.value - 1] == '\n'
    ensures r.Some? ==> r.value == i + 4 || r.value == i + 8 || r.value == i + 9
  {
    if !TicksAt(s, i) then None
    else if i + 8 <= |s| && s[i + 3] == 'b' && s[i + 4] == 'a' && s[i + 5] == 's' && s[i + 6] == 'h'
            && s[i + 7] == '\n' then Some(i + 8)
    else if i + 9 <= |s| && s[i + 3] == 's' && s[i + 4] == 'h' && s[i + 5] == 'e' && s[i + 6] == 'l'
            && s[i + 7] == 'l' && s[i + 8] == '\n' then Some(i + 9)
    else if i + 4 <= |s| && s[i + 3] == '\n' then Some(i + 4)
    else None
  }

  /** The regular expression matches at `i` with exactly this block. */
  ghost predicate IsMatch(s: string, b: Block) {
    && OpeningAt(s, b.start) == Some(b.bodyStart)
    && b.bodyStart <= b.bodyEnd
    && ClosingAt(s, b.bodyEnd)
    && forall j | b.bodyStart <= j < b.bodyEnd :: !ClosingAt(s, j)
  }

  /** The match that starts at offset `i`, if any. */
  function MatchAt(s: string, i: nat): (r: Option<Block>)
    ensures r.Some? ==> r.value.start == i && IsMatch(s, r.value)
  {
    match OpeningAt(s, i)
    case None => None
    case Some(bodyStart) =>
      var j := ClosingFrom(s, bodyStart);
      if j == -1 then None else Some(Block(i, bodyStart, j))
  }

  /** A match is determined by where it starts: the lazy body admits one end only. */
  lemma MatchUnique(s: string, b: Block, c: Block)
    requires IsMatch(s, b) && IsMatch(s, c) && b.start == c.start
    ensures b == c
  {
  }

  /** The scanner finds every match the pattern admits at an offset. */
  lemma MatchAtComplete(s: string, b: Block)
    requires IsMatch(s, b)
    ensures MatchAt(s, b.start) == Some(b)
  {
    var j := ClosingFrom(s, b.bodyStart);
    assert j != -1 && j <= b.bodyEnd;
  }

  /** No match starts in [a, c). */
  ghost predicate NoMatchIn(s: string, a: int, c: int) {
    forall b: Block | a <= b.start < c :: !IsMatch(s, b)
  }

  /** Where a search resumes after a match. */
  function End(b: Block): nat {
    b.bodyEnd + |Closing|
  }

  /**
   * FindAllStringSubmatch from offset `pos`: each match is the one at the
   * first offset, at or after the end of the previous match, where one starts.
   */
  function FindAll(s: string, pos: nat): (r: seq<Block>)
    decreases |s| - pos
    ensures forall k | 0 <= k < |r| :: IsMatch(s, r[k]) && pos <= r[k].start
    ensures forall k | 0 < k < |r| :: End(r[k - 1]) <= r[k].start
  {
    if pos >= |s| then []
    else
      match MatchAt(s, pos)
      case Some(b) =>
        var rest := FindAll(s, End(b));
        assert forall k | 1 <= k < |[b] + rest| :: ([b] + rest)[k] == rest[k - 1];
        [b] + rest
      case None => FindAll(s, pos + 1)
  }

  /** No match starts at or beyond the end of the input. */
  lemma NoMatchBeyond(s: string, pos: nat)
    requires pos >= |s|
    ensures NoMatchIn(s, pos, |s| + 1)
  {
  }

  /** No match starts where the scanner finds none. */
  lemma NoMatchWhereNoneFound(s: string, pos: nat)
    requires MatchAt(s, pos).None?
    ensures NoMatchIn(s, pos, pos + 1)
  {
    forall b: Block | pos <= b.start < pos + 1 && IsMatch(s, b)
      ensures false
    {
      MatchAtComplete(s, b);
    }
  }

  /**
   * `r` leaves no match out from `pos` on: none starts before its first block,
   * between two of its blocks, or after its last block.
   */
  ghost predicate Leftmost(s: string, pos: int, r: seq<Block>) {
    && (forall k | 0 < k < |r| :: NoMatchIn(s, End(r[k - 1]), r[k].start))
    && (|r| == 0 ==> NoMatchIn(s, pos, |s|))
    && (|r| > 0 ==> NoMatchIn(s, pos, r[0].start) && NoMatchIn(s, End(r[|r| - 1]), |s|))
  }

  lemma LeftmostCons(s: string, b: Block, rest: seq<Block>)
    requires Leftmost(s, End(b), rest)
    ensures Leftmost(s, b.start, [b] + rest)
  {
    var r := [b] + rest;
    assert forall k | 1 <= k < |r| :: r[k] == rest[k - 1];
    if |rest| == 0 {
      assert r[|r| - 1] == b;
    } else {
      assert r[|r| - 1] == rest[|rest| - 1];
    }
  }

  lemma LeftmostSkip(s: string, pos: nat, r: seq<Block>)
    requires Leftmost(s, pos + 1, r) && NoMatchIn(s, pos, pos + 1)
    requires forall k | 0 <= k < |r| :: pos + 1 <= r[k].start
    ensures Leftmost(s, pos, r)
  {
  }

  /** No offset is skipped: between the matches found, and around them, no match starts. */
  lemma {:induction false} FindAllLeftmost(s: string, pos: nat)
    decreases |s| - pos
    ensures Leftmost(s, pos, FindAll(s, pos))
  {
    if pos < |s| {
      var m := MatchAt(s, pos);
      if m.Some? {
        FindAllLeftmost(s, End(m.value));
        FoundStep(s, pos);
      } else {
        FindAllLeftmost(s, pos + 1);
        SkipStep(s, pos);
      }
    }
  }

  lemma FoundStep(s: string, pos: nat)
    requires pos < |s| && MatchAt(s, pos).Some?
    requires Leftmost(s, End(MatchAt(s, pos).value), FindAll(s, End(MatchAt(s, pos).value)))
    ensures Leftmost(s, pos, FindAll(s, pos))
  {
    var b := MatchAt(s, pos).value;
    assert FindAll(s, pos) == [b] + FindAll(s, End(b));
    LeftmostCons(s, b, FindAll(s, End(b)));
  }

  lemma SkipStep(s: string, pos: nat)
    requires pos < |s| && MatchAt(s, pos).None?
    requires Leftmost(s, pos + 1, FindAll(s, pos + 1))
    ensures Leftmost(s, pos, FindAll(s, pos))
  {
    assert FindAll(s, pos) == FindAll(s, pos + 1);
    NoMatchWhereNoneFound(s, pos);
    LeftmostSkip(s, pos, FindAll(s, pos + 1));
  }

  /** The whole block, match[0] in the source. */
  function Text(s: string, b: Block): (t: string)
    requires IsMatch(s, b)
    ensures HasPrefix(t, "```") && HasSuffix(t, Closing)
  {
    var t := s[b.start..End(b)];
    assert t[..3] == "```";
    ClosingAtOccurs(s, b.bodyEnd);
    assert t[|t| - 4..] == s[b.bodyEnd..End(b)];
    t
  }

  /** The captured body, match[1] in the source: it never contains the closing fence. */
  function Body(s: string, b: Block): (t: string)
    requires IsMatch(s, b)
    ensures !Contains(t, Closing)
  {
    var t := s[b.bodyStart..b.bodyEnd];
    assert !Contains(t, Closing) by {
      forall j | 0 <= j <= |t| - |Closing| && OccursAt(t, Closing, j)
        ensures false
      {
        SliceOfSlice(s, b.bodyStart, b.bodyEnd, j, j + |Closing|);
        ClosingAtOccurs(s, b.bodyStart + j);
      }
    }
    t
  }

  /** The blocks of a whole response. */
  function Blocks(s: string): (r: seq<Block>)
    ensures forall k | 0 <= k < |r| :: IsMatch(s, r[k])
  {
    FindAll(s, 0)
  }

  /** A block starts at least four bytes before the end of the text. */
  lemma MatchStartsInside(s: string, b: Block)
    requires IsMatch(s, b)
    ensures b.start + 4 <= |s|
  {
  }

  lemma NotMatchedIn(s: string, a: int, c: int, b: Block)
    requires NoMatchIn(s, a, c) && a <= b.start < c
    ensures !IsMatch(s, b)
  {
  }

  lemma {:induction false} BlocksComplete(s: string, b: Block)
    requires IsMatch(s, b)
    ensures b in Blocks(s) || exists k | 0 <= k < |Blocks(s)| :: Blocks(s)[k].start < b.start < End(Blocks(s)[k])
  {
    var r := Blocks(s);
    FindAllLeftmost(s, 0);
    MatchStartsInside(s, b);
    if |r| == 0 {
      NotMatchedIn(s, 0, |s|, b);
      assert false;
    } else if b.start < r[0].start {
      NotMatchedIn(s, 0, r[0].start, b);
      assert false;
    } else if End(r[|r| - 1]) <= b.start {
      NotMatchedIn(s, End(r[|r| - 1]), |s|, b);
      assert false;
    } else {
      InsideSomeBlock(s, r, b);
    }
  }

  /** Between the first start and the last end, an offset is a start, inside a block, or in a gap. */
  lemma {:induction false} InsideSomeBlock(s: string, r: seq<Block>, b: Block)
    requires |r| > 0 && r[0].start <= b.start < End(r[|r| - 1])
    requires IsMatch(s, b)
    requires forall k | 0 <= k < |r| :: IsMatch(s, r[k])
    requires forall k | 0 < k < |r| :: End(r[k - 1]) <= r[k].start && NoMatchIn(s, End(r[k - 1]), r[k].start)
    ensures b in r || exists k | 0 <= k < |r| :: r[k].start < b.start < End(r[k])
    decreases |r|
  {
    if b.start == r[0].start {
      MatchUnique(s, r[0], b);
    } else if b.start < End(r[0]) {
    } else {
      assert |r| > 1;
      var r' := r[1..];
      assert forall k | 0 <= k < |r'| :: r'[k] == r[k + 1];
      InsideSomeBlock(s, r', b);
      if b in r' {
      } else {
        var k :| 0 <= k < |r'| && r'[k].start < b.start < End(r'[k]);
        assert r[k + 1].start < b.start < End(r[k + 1]);
      }
    }
  }

  /** A response without three consecutive backticks holds no blocks. */
  lemma NoFenceNoBlocks(s: string)
    requires !Contains(s, "```")
    ensures Blocks(s) == []
  {
    var r := Blocks(s);
    if |r| > 0 {
      var i := r[0].start;
      assert s[i..i + 3] == "```";
      OccursAtContains(s, "```", i);
    }
  }
}
