/**
 * Descriptive context for a command: the prose just before the command's code
 * block, cut at the last paragraph break or heading (ParseCommandContext in
 * presetation/models/message.go, extractCommandContext in
 * presetation/chat/commands.go).
 */
module CommandContext {
  import opened Bytes

  /**
   * The up to `width` bytes of `content` that precede the first occurrence of
   * `block`, or "" when `block` does not occur.
   */
  function Window(content: string, block: string, width: nat): (w: string)
    ensures |w| <= width
    ensures Contains(content, block) ==> HasSuffix(content[..Index(content, block)], w)
    ensures Contains(content, block) ==>
              |w| == if Index(content, block) >= width then width else Index(content, block)
    ensures !Contains(content, block) ==> w == ""
  {
    var idx := Index(content, block);
    if idx == -1 then ""
    else
      var start := if idx - width > 0 then idx - width else 0;
      content[start..idx]
  }

  /**
   * The largest of `acc` and the last offsets of the patterns in `s`, as the
   * source's loop computes it: it keeps the largest last offset seen so far.
   */
  function LastOfAny(s: string, pats: seq<string>, acc: int): (r: int)
    requires acc >= -1
    ensures r >= acc
    ensures r == acc || exists k | 0 <= k < |pats| :: OccursAt(s, pats[k], r)
    ensures forall k, j | 0 <= k < |pats| && r < j :: !OccursAt(s, pats[k], j)
  {
    if |pats| == 0 then acc
    else
      var idx := LastIndex(s, pats[0]);
      var acc' := if idx > acc then idx else acc;
      var r := LastOfAny(s, pats[1..], acc');
      assert forall k | 1 <= k < |pats| :: pats[k] == pats[1..][k - 1];
      assert r != acc' ==> exists k | 1 <= k < |pats| :: OccursAt(s, pats[k], r);
      assert acc' != acc ==> OccursAt(s, pats[0], acc');
      r
  }

  /** `r` is where the last occurrence of any of `pats` in `s` starts, or -1 when none occurs. */
  ghost predicate IsLastOccurrence(s: string, pats: seq<string>, r: int) {
    (r == -1 || exists k | 0 <= k < |pats| :: OccursAt(s, pats[k], r)) &&
    (forall k, j | 0 <= k < |pats| && r < j :: !OccursAt(s, pats[k], j))
  }

  /** The source's loop started from -1 finds the last occurrence. */
  lemma LastOfAnyIsLast(s: string, pats: seq<string>)
    ensures IsLastOccurrence(s, pats, LastOfAny(s, pats, -1))
  {
  }

  /** The last occurrence is unique. */
  lemma LastOccurrenceUnique(s: string, pats: seq<string>, r1: int, r2: int)
    requires IsLastOccurrence(s, pats, r1) && IsLastOccurrence(s, pats, r2)
    ensures r1 == r2
  {
  }

  /** `cut` is where the last occurrence of any of `pats` in `w` starts, or 0 when none occurs. */
  ghost predicate IsLastBreak(w: string, pats: seq<string>, cut: int) {
    0 <= cut <= |w| &&
    (forall k, j | 0 <= k < |pats| && cut < j :: !OccursAt(w, pats[k], j)) &&
    (cut == 0 || exists k | 0 <= k < |pats| :: OccursAt(w, pats[k], cut))
  }

  /** The offset at which the context text starts after cutting `w` at its last break. */
  function BreakCut(w: string, pats: seq<string>): (cut: int)
    ensures IsLastBreak(w, pats, cut)
  {
    var last := LastOfAny(w, pats, -1);
    if last != -1 then last else 0
  }

  /** The last break of a string is unique. */
  lemma LastBreakUnique(w: string, pats: seq<string>, c1: int, c2: int)
    requires IsLastBreak(w, pats, c1) && IsLastBreak(w, pats, c2)
    ensures c1 == c2
  {
  }

  // ---------------------------------------------------------------------
  // ParseCommandContext
  // ---------------------------------------------------------------------

  const ParseWindow := 150

  const BreakPoints: seq<string> := ["\n\n", "# ", "## ", "### "]

  /** The bullet "\n• " is written with the three UTF-8 bytes of U+2022. */
  const ListMarkers: seq<string> := ["\n1. ", "\n- ", "\n* ", "\n\U{E2}\U{80}\U{A2} "]

  /**
   * The source's list-marker loop: it records `idx + 1` (the offset after
   * the marker's newline) but compares each later marker's offset with that
   * recorded value, so a later marker wins only when it lies at least two
   * bytes further on.
   */
  function ListCut(s: string, pats: seq<string>, acc: int): (r: int)
    requires forall k | 0 <= k < |pats| :: |pats[k]| >= 1
    requires -1 <= acc <= |s|
    ensures acc <= r <= |s|
    ensures r == acc || exists k | 0 <= k < |pats| :: OccursAt(s, pats[k], r - 1)
  {
    if |pats| == 0 then acc
    else
      var idx := LastIndex(s, pats[0]);
      var acc' := if idx > acc then idx + 1 else acc;
      var r := ListCut(s, pats[1..], acc');
      assert forall k | 1 <= k < |pats| :: pats[k] == pats[1..][k - 1];
      assert r != acc' ==> exists k | 1 <= k < |pats| :: OccursAt(s, pats[k], r - 1);
      assert acc' != acc ==> OccursAt(s, pats[0], acc' - 1);
      r
  }

  /** Patterns of at least two bytes that start with a newline and continue with another byte. */
  predicate NewlineLed(pats: seq<string>) {
    forall k | 0 <= k < |pats| :: |pats[k]| >= 2 && pats[k][0] == '\n' && pats[k][1] != '\n'
  }

  lemma ListMarkersNewlineLed()
    ensures NewlineLed(ListMarkers)
  {
  }

  /**
   * For newline-led patterns the recorded `idx + 1` never hides a later
   * marker: two such markers cannot start one byte apart, so the loop yields
   * one past the start of the last marker, or -1 when none occurs.
   */
  lemma {:induction false} ListCutIsLastPlusOne(s: string, pats: seq<string>, acc: int)
    requires NewlineLed(pats)
    requires acc == -1 || (0 <= acc && acc + 1 < |s| && s[acc + 1] != '\n')
    ensures ListCut(s, pats, AfterNewline(acc)) == AfterNewline(LastOfAny(s, pats, acc))
  {
    if |pats| > 0 {
      var p := pats[0];
      var tail := pats[1..];
      var idx := LastIndex(s, p);
      if idx != -1 {
        NewlineLedStart(s, p, idx);
      }
      var acc' := if idx > acc then idx else acc;
      assert (if idx > AfterNewline(acc) then idx + 1 else AfterNewline(acc)) == AfterNewline(acc');
      ListCutStep(s, pats, AfterNewline(acc));
      LastOfAnyStep(s, pats, acc);
      assert NewlineLed(tail) by {
        assert forall k | 0 <= k < |tail| :: tail[k] == pats[k + 1];
      }
      ListCutIsLastPlusOne(s, tail, acc');
    }
  }

  /** One turn of the list-marker loop. */
  lemma ListCutStep(s: string, pats: seq<string>, acc: int)
    requires |pats| > 0 && forall k | 0 <= k < |pats| :: |pats[k]| >= 1
    requires -1 <= acc <= |s|
    ensures var idx := LastIndex(s, pats[0]);
      ListCut(s, pats, acc) == ListCut(s, pats[1..], if idx > acc then idx + 1 else acc)
  {
  }

  /** One turn of the last-occurrence loop. */
  lemma LastOfAnyStep(s: string, pats: seq<string>, acc: int)
    requires |pats| > 0 && acc >= -1
    ensures var idx := LastIndex(s, pats[0]);
      LastOfAny(s, pats, acc) == LastOfAny(s, pats[1..], if idx > acc then idx else acc)
  {
  }

  /** One past `i`, keeping -1 for "none". */
  function AfterNewline(i: int): int {
    if i == -1 then -1 else i + 1
  }

  /** Where a newline-led pattern occurs, a newline starts and another byte follows. */
  lemma NewlineLedStart(s: string, p: string, i: int)
    requires |p| >= 2 && p[0] == '\n' && p[1] != '\n'
    requires OccursAt(s, p, i)
    ensures i + 1 < |s| && s[i] == '\n' && s[i + 1] != '\n'
  {
    assert s[i..i + |p|][0] == s[i] && s[i..i + |p|][1] == s[i + 1];
  }

  /**
   * Where the source starts the context within the text after the break:
   * just after the newline of the last list marker when that offset, counted
   * in the text, exceeds the break's offset counted in the window; otherwise
   * at the start. `breakAt` and `lastMarker` are -1 when there is none.
   */
  function ListStart(breakAt: int, lastMarker: int): int {
    if lastMarker != -1 && lastMarker + 1 > breakAt then lastMarker + 1 else 0
  }

  /** `a` is 0 or the offset just after the newline of a list marker in `t`. */
  ghost predicate IsListCut(t: string, a: int) {
    0 <= a <= |t| && (a == 0 || exists k | 0 <= k < |ListMarkers| :: OccursAt(t, ListMarkers[k], a - 1))
  }

  lemma ListMarkersNonEmpty()
    ensures forall k | 0 <= k < |ListMarkers| :: |ListMarkers[k]| >= 1
  {
  }

  /**
   * Where the list-marker cut falls in the text after the last break, or 0 when
   * the source keeps that text whole. The marker offset, counted in the text,
   * is compared with the break offset, counted in the window, as in the source.
   */
  function ListOffset(w: string): (a: int)
    ensures IsListCut(w[BreakCut(w, BreakPoints)..], a)
    ensures forall b, l | IsLastOccurrence(w, BreakPoints, b) &&
                          IsLastOccurrence(w[BreakCut(w, BreakPoints)..], ListMarkers, l) ::
              a == ListStart(b, l)
  {
    var lastBreak := LastOfAny(w, BreakPoints, -1);
    var text := w[BreakCut(w, BreakPoints)..];
    var lastMarker := LastOfAny(text, ListMarkers, -1);
    ListMarkersNonEmpty();
    ListMarkersNewlineLed();
    ListCutIsLastPlusOne(text, ListMarkers, -1);
    var lastList := ListCut(text, ListMarkers, -1);
    assert lastList == AfterNewline(lastMarker);
    ListOffsetIsListStart(w, text, lastBreak, lastMarker);
    if lastList > lastBreak then lastList else 0
  }

  /** Any last break and last marker are the ones the source's loops find. */
  lemma ListOffsetIsListStart(w: string, text: string, lastBreak: int, lastMarker: int)
    requires lastBreak == LastOfAny(w, BreakPoints, -1) && lastMarker == LastOfAny(text, ListMarkers, -1)
    ensures forall b, l | IsLastOccurrence(w, BreakPoints, b) && IsLastOccurrence(text, ListMarkers, l) ::
      b == lastBreak && l == lastMarker
  {
    LastOfAnyIsLast(w, BreakPoints);
    LastOfAnyIsLast(text, ListMarkers);
    forall b, l | IsLastOccurrence(w, BreakPoints, b) && IsLastOccurrence(text, ListMarkers, l)
      ensures b == lastBreak && l == lastMarker
    {
      LastOccurrenceUnique(w, BreakPoints, b, lastBreak);
      LastOccurrenceUnique(text, ListMarkers, l, lastMarker);
    }
  }

  /** The context text of a window: cut at the last break point, then (maybe) at a list marker, trimmed. */
  function CutContext(w: string): (r: string)
    ensures |r| <= |w|
    ensures IsTrimmed(r)
    ensures forall cut, b, l | IsLastBreak(w, BreakPoints, cut) && IsLastOccurrence(w, BreakPoints, b) &&
                               IsLastOccurrence(w[cut..], ListMarkers, l) ::
              ListStart(b, l) <= |w| - cut && r == TrimSpace(w[cut..][ListStart(b, l)..])
  {
    var cut := BreakCut(w, BreakPoints);
    var a := ListOffset(w);
    forall c | IsLastBreak(w, BreakPoints, c)
      ensures c == cut
    {
      LastBreakUnique(w, BreakPoints, c, cut);
    }
    TrimSpace(w[cut..][a..])
  }

  /** A pattern occurs only where its first two bytes do. */
  lemma OccursAtFirstBytes(s: string, p: string, i: int)
    requires |p| >= 2 && OccursAt(s, p, i)
    ensures i + 1 < |s| && s[i] == p[0] && s[i + 1] == p[1]
  {
    assert s[i..i + |p|][0] == s[i] && s[i..i + |p|][1] == s[i + 1];
  }

  /**
   * The comparison across coordinates, on a concrete window: the list marker
   * "\n- " lies after the paragraph break, yet its offset in the cut text (3)
   * plus one does not exceed the break's offset in the window (4), so the
   * source keeps the text from the break on and does not cut at the marker.
   */
  lemma MarkerBeforeBreakOffsetKept()
    ensures CutContext("abcd\n\nx\n- y") == "x\n- y"
  {
    var w := "abcd\n\nx\n- y";
    var text := w[4..];
    assert text == "\n\nx\n- y";
    forall k, j | 0 <= k < |BreakPoints| && 4 < j
      ensures !OccursAt(w, BreakPoints[k], j)
    {
      if OccursAt(w, BreakPoints[k], j) {
        OccursAtFirstBytes(w, BreakPoints[k], j);
      }
    }
    assert OccursAt(w, BreakPoints[0], 4);
    assert IsLastBreak(w, BreakPoints, 4);
    assert IsLastOccurrence(w, BreakPoints, 4);
    forall k, j | 0 <= k < |ListMarkers| && 3 < j
      ensures !OccursAt(text, ListMarkers[k], j)
    {
      if OccursAt(text, ListMarkers[k], j) {
        OccursAtFirstBytes(text, ListMarkers[k], j);
      }
    }
    assert OccursAt(text, ListMarkers[1], 3);
    assert IsLastOccurrence(text, ListMarkers, 3);
    assert ListStart(4, 3) == 0;
    assert text[0..] == text;
    TrimExample();
  }

  /** The example's text from the break on, trimmed. */
  lemma TrimExample()
    ensures TrimSpace("\n\nx\n- y") == "x\n- y"
  {
    assert "\n\nx\n- y" == "\n\n" + "x\n- y";
    TrimLeadingSpace("\n\n", "x\n- y");
  }

  /** ParseCommandContext */
  function ParseCommandContext(content: string, commandBlock: string): (r: string)
    ensures !Contains(content, commandBlock) ==> r == ""
    ensures |r| <= ParseWindow
    ensures IsTrimmed(r)
    ensures r == CutContext(Window(content, commandBlock, ParseWindow))
  {
    var w := Window(content, commandBlock, ParseWindow);
    if !Contains(content, commandBlock) then ""
    else CutContext(w)
  }

  /** Without break points or list markers in its window, the context is the whole window, trimmed. */
  lemma PlainWindowContext(content: string, commandBlock: string)
    requires var w := Window(content, commandBlock, ParseWindow);
      (forall k | 0 <= k < |BreakPoints| :: !Contains(w, BreakPoints[k])) &&
      (forall k | 0 <= k < |ListMarkers| :: !Contains(w, ListMarkers[k]))
    ensures ParseCommandContext(content, commandBlock) == TrimSpace(Window(content, commandBlock, ParseWindow))
  {
    PlainCutContext(Window(content, commandBlock, ParseWindow));
  }

  /** A text with no break point and no list marker is its own context, trimmed. */
  lemma PlainCutContext(w: string)
    requires forall k | 0 <= k < |BreakPoints| :: !Contains(w, BreakPoints[k])
    requires forall k | 0 <= k < |ListMarkers| :: !Contains(w, ListMarkers[k])
    ensures CutContext(w) == TrimSpace(w)
  {
    NoneOccurs(w, BreakPoints);
    NoneOccurs(w, ListMarkers);
    assert w[0..] == w && w[0..][0..] == w;
    assert IsLastBreak(w, BreakPoints, 0);
    assert IsLastOccurrence(w[0..], ListMarkers, -1);
  }

  /** Patterns that are not contained occur nowhere: the last occurrence is "none". */
  lemma NoneOccurs(w: string, pats: seq<string>)
    requires forall k | 0 <= k < |pats| :: !Contains(w, pats[k])
    ensures IsLastOccurrence(w, pats, -1)
  {
    forall k, j | 0 <= k < |pats| && -1 < j
      ensures !OccursAt(w, pats[k], j)
    {
      if OccursAt(w, pats[k], j) {
        OccursAtContains(w, pats[k], j);
      }
    }
  }

  /** What occurs in the window occurs before the block. */
  lemma WindowPrecedesBlock(content: string, block: string, width: nat, r: string)
    requires Contains(content, block)
    requires Contains(Window(content, block, width), r)
    ensures Contains(content[..Index(content, block)], r)
  {
    var before := content[..Index(content, block)];
    var w := Window(content, block, width);
    assert HasSuffix(before, w);
    assert before[|before| - |w|..|before|] == w;
    SliceContained(before, |before| - |w|, |before|);
    ContainsTrans(before, w, r);
  }

  /** The cut context occurs in its window. */
  lemma CutContextInWindow(w: string)
    ensures Contains(w, CutContext(w))
  {
    TrimOfSuffixOfSuffixContained(w, BreakCut(w, BreakPoints), ListOffset(w));
  }

  /** The context is text that occurs before the command block. */
  lemma ContextPrecedesBlock(content: string, commandBlock: string)
    requires Contains(content, commandBlock)
    ensures Contains(content[..Index(content, commandBlock)], ParseCommandContext(content, commandBlock))
  {
    var w := Window(content, commandBlock, ParseWindow);
    CutContextInWindow(w);
    WindowPrecedesBlock(content, commandBlock, ParseWindow, CutContext(w));
  }

  // ---------------------------------------------------------------------
  // extractCommandContext
  // ---------------------------------------------------------------------

  const ExtractWindow := 100

  const Delimiters: seq<string> := ["\n\n", "# ", "## "]

  /** extractCommandContext: the window of 100 bytes cut at its last delimiter, trimmed. */
  function ExtractCommandContext(content: string, commandMatch: string): (r: string)
    ensures !Contains(content, commandMatch) ==> r == ""
    ensures |r| <= ExtractWindow
    ensures IsTrimmed(r)
    ensures var w := Window(content, commandMatch, ExtractWindow);
      exists cut | IsLastBreak(w, Delimiters, cut) :: r == TrimSpace(w[cut..])
  {
    var w := Window(content, commandMatch, ExtractWindow);
    if !Contains(content, commandMatch) then
      assert IsLastBreak(w, Delimiters, 0);
      ""
    else
      var lastBreak := LastOfAny(w, Delimiters, -1);
      var text := if lastBreak != -1 then w[lastBreak..] else w;
      assert text == w[BreakCut(w, Delimiters)..];
      TrimSpace(text)
  }

  /** The extracted context is text that occurs before the code block. */
  lemma ExtractedContextPrecedesMatch(content: string, commandMatch: string)
    requires Contains(content, commandMatch)
    ensures Contains(content[..Index(content, commandMatch)], ExtractCommandContext(content, commandMatch))
  {
    var w := Window(content, commandMatch, ExtractWindow);
    var r := ExtractCommandContext(content, commandMatch);
    var cut := BreakCut(w, Delimiters);
    TrimOfSuffixContained(w, cut);
    WindowPrecedesBlock(content, commandMatch, ExtractWindow, r);
  }
}
