/**
 * The byte-string operations of Go's `strings` package that the core relies on.
 *
 * A Go string is a sequence of bytes and `len`, slicing, `Index` and
 * `LastIndex` all count bytes. Here a `string` is read the same way: each
 * char stands for one byte. Whitespace trimming and upper-casing follow Go's
 * behaviour on ASCII input.
 */
module Bytes {

  /** `p` occurs in `s` starting at byte offset `i`. */
  predicate OccursAt(s: string, p: string, i: int) {
    0 <= i && i + |p| <= |s| && s[i..i + |p|] == p
  }

  /** strings.Contains */
  predicate Contains(s: string, p: string) {
    exists i | 0 <= i <= |s| - |p| :: OccursAt(s, p, i)
  }

  /** strings.HasPrefix */
  predicate HasPrefix(s: string, p: string) {
    |p| <= |s| && s[..|p|] == p
  }

  /** strings.HasSuffix */
  predicate HasSuffix(s: string, p: string) {
    |p| <= |s| && s[|s| - |p|..] == p
  }

  /** A slice of a slice is a slice of the original. */
  lemma SliceOfSlice(s: string, a: int, b: int, j: int, k: int)
    requires 0 <= a <= b <= |s| && 0 <= j <= k <= b - a
    ensures s[a..b][j..k] == s[a + j..a + k]
  {
    forall i | 0 <= i < k - j
      ensures s[a..b][j..k][i] == s[a + j..a + k][i]
    {
      assert s[a..b][j..k][i] == s[a..b][j + i] == s[a + j + i];
    }
  }

  lemma OccursAtContains(s: string, p: string, i: int)
    requires OccursAt(s, p, i)
    ensures Contains(s, p)
  {
  }

  lemma {:induction false} ContainsInAppend(a: string, b: string, p: string)
    requires Contains(a, p) || Contains(b, p)
    ensures Contains(a + b, p)
  {
    if Contains(a, p) {
      var i :| 0 <= i <= |a| - |p| && OccursAt(a, p, i);
      assert (a + b)[i..i + |p|] == a[i..i + |p|];
      OccursAtContains(a + b, p, i);
    } else {
      var i :| 0 <= i <= |b| - |p| && OccursAt(b, p, i);
      assert (a + b)[|a| + i..|a| + i + |p|] == b[i..i + |p|];
      OccursAtContains(a + b, p, |a| + i);
    }
  }

  /** A pattern longer than `s`, or one whose first byte `s` lacks, is not contained in `s`. */
  lemma NotContained(s: string, p: string)
    requires |p| > |s| || (|p| > 0 && p[0] !in s)
    ensures !Contains(s, p)
  {
    if |p| <= |s| {
      forall i | 0 <= i <= |s| - |p|
        ensures !OccursAt(s, p, i)
      {
        assert s[i..i + |p|][0] == s[i];
      }
    }
  }

  /** A pattern holding a byte that `s` lacks is not contained in `s`. */
  lemma NotContainedByte(s: string, p: string, j: int)
    requires 0 <= j < |p| && p[j] !in s
    ensures !Contains(s, p)
  {
    forall i | 0 <= i <= |s| - |p|
      ensures !OccursAt(s, p, i)
    {
      assert s[i..i + |p|][j] == s[i + j];
    }
  }

  /** `p` is not a prefix of `s` when they differ at an offset both have. */
  lemma NotPrefixAt(s: string, p: string, i: int)
    requires 0 <= i < |p| && i < |s| && s[i] != p[i]
    ensures !HasPrefix(s, p)
  {
  }

  /** A prefix of `s` is contained in `s`. */
  lemma PrefixContained(s: string, p: string)
    requires HasPrefix(s, p)
    ensures Contains(s, p)
  {
    OccursAtContains(s, p, 0);
  }

  // ---------------------------------------------------------------------
  // Index and LastIndex
  // ---------------------------------------------------------------------

  /** The first occurrence of `p` in `s` at or after `k`, or -1. */
  function IndexFrom(s: string, p: string, k: nat): (r: int)
    decreases |s| - k
    ensures r == -1 || (k <= r && OccursAt(s, p, r))
    ensures r == -1 ==> forall j | k <= j :: !OccursAt(s, p, j)
    ensures r != -1 ==> forall j | k <= j < r :: !OccursAt(s, p, j)
  {
    if k + |p| > |s| then -1
    else if s[k..k + |p|] == p then k
    else IndexFrom(s, p, k + 1)
  }

  /** strings.Index: the byte offset of the first occurrence of `p`, or -1. */
  function Index(s: string, p: string): (r: int)
    ensures r == -1 <==> !Contains(s, p)
    ensures r != -1 ==> OccursAt(s, p, r) && forall j | 0 <= j < r :: !OccursAt(s, p, j)
  {
    IndexFrom(s, p, 0)
  }

  /** The last occurrence of `p` in `s` starting at or before `k`, or -1. */
  function LastIndexUpTo(s: string, p: string, k: int): (r: int)
    decreases k + 1
    ensures r == -1 || (0 <= r <= k && OccursAt(s, p, r))
    ensures r == -1 ==> forall j | j <= k :: !OccursAt(s, p, j)
    ensures r != -1 ==> forall j | r < j <= k :: !OccursAt(s, p, j)
  {
    if k < 0 then -1
    else if OccursAt(s, p, k) then k
    else LastIndexUpTo(s, p, k - 1)
  }

  /** strings.LastIndex: the byte offset of the last occurrence of `p`, or -1. */
  function LastIndex(s: string, p: string): (r: int)
    ensures r == -1 <==> !Contains(s, p)
    ensures r != -1 ==> OccursAt(s, p, r) && forall j | r < j :: !OccursAt(s, p, j)
  {
    LastIndexUpTo(s, p, |s| - |p|)
  }

  // ---------------------------------------------------------------------
  // Lists of patterns, as the validator scans them
  // ---------------------------------------------------------------------

  /** Some pattern of `pats` is a substring of `s`. */
  function ContainsAny(s: string, pats: seq<string>): (r: bool)
    ensures r <==> exists k | 0 <= k < |pats| :: Contains(s, pats[k])
  {
    if |pats| == 0 then false
    else if Contains(s, pats[0]) then true
    else ContainsAny(s, pats[1..])
  }

  /** Some pattern of `pats` is a prefix of `s`. */
  function HasAnyPrefix(s: string, pats: seq<string>): (r: bool)
    ensures r <==> exists k | 0 <= k < |pats| :: HasPrefix(s, pats[k])
  {
    if |pats| == 0 then false
    else if HasPrefix(s, pats[0]) then true
    else HasAnyPrefix(s, pats[1..])
  }

  /** `s` runs program `w`: it is exactly `w`, or `w` followed by a space and arguments. */
  predicate IsCommandWord(s: string, w: string) {
    s == w || HasPrefix(s, w + " ")
  }

  /** `s` does not run `w` when they differ at an offset both have. */
  lemma NotCommandWordAt(s: string, w: string, i: int)
    requires 0 <= i < |w| && i < |s| && s[i] != w[i]
    ensures !IsCommandWord(s, w)
  {
    NotPrefixAt(s, w + " ", i);
  }

  /** `s` runs some program of `ws` in the sense of IsCommandWord. */
  function IsAnyCommandWord(s: string, ws: seq<string>): (r: bool)
    ensures r <==> exists k | 0 <= k < |ws| :: IsCommandWord(s, ws[k])
  {
    if |ws| == 0 then false
    else if IsCommandWord(s, ws[0]) then true
    else IsAnyCommandWord(s, ws[1..])
  }

  // ---------------------------------------------------------------------
  // TrimSpace
  // ---------------------------------------------------------------------

  /** The ASCII white-space bytes strings.TrimSpace removes. */
  predicate IsSpace(c: char) {
    c == ' ' || c == '\t' || c == '\n' || c == '\U{000B}' || c == '\U{000C}' || c == '\r'
  }

  predicate AllSpace(s: string) {
    forall i | 0 <= i < |s| :: IsSpace(s[i])
  }

  /** Neither end of `s` is white space. */
  predicate IsTrimmed(s: string) {
    s == [] || (!IsSpace(s[0]) && !IsSpace(s[|s| - 1]))
  }

  /** `r` is what remains of `s` once white space is removed from both ends. */
  ghost predicate TrimOf(s: string, r: string) {
    IsTrimmed(r) &&
    exists a | 0 <= a <= |s| - |r| :: OccursAt(s, r, a) && AllSpace(s[..a]) && AllSpace(s[a + |r|..])
  }

  function TrimLeft(s: string): (r: string)
    ensures |r| <= |s| && r == s[|s| - |r|..]
    ensures AllSpace(s[..|s| - |r|])
    ensures r != [] ==> !IsSpace(r[0])
  {
    if s != [] && IsSpace(s[0]) then TrimLeft(s[1..]) else s
  }

  function TrimRight(s: string): (r: string)
    ensures |r| <= |s| && r == s[..|r|]
    ensures AllSpace(s[|r|..])
    ensures r != [] ==> !IsSpace(r[|r| - 1])
  {
    if s != [] && IsSpace(s[|s| - 1]) then TrimRight(s[..|s| - 1]) else s
  }

  /** strings.TrimSpace */
  function TrimSpace(s: string): (r: string)
    ensures TrimOf(s, r)
    ensures |r| <= |s|
  {
    TrimBothEnds(s);
    TrimRight(TrimLeft(s))
  }

  lemma TrimBothEnds(s: string)
    ensures TrimOf(s, TrimRight(TrimLeft(s)))
  {
    var l := TrimLeft(s);
    var r := TrimRight(l);
    var a := |s| - |l|;
    assert l == s[a..];
    assert r == l[..|r|];
    assert s[a..a + |r|] == l[..|r|];
    assert s[a + |r|..] == l[|r|..];
    assert IsTrimmed(r) by {
      if r != [] {
        assert r[0] == l[0];
      }
    }
    assert OccursAt(s, r, a);
  }

  /** Trimming removes only white space: a trimmed string is its own trim. */
  lemma TrimOfTrimmed(s: string)
    requires IsTrimmed(s)
    ensures TrimSpace(s) == s
  {
    assert TrimLeft(s) == s;
  }

  /** White space in front of a trimmed string is all that trimming removes. */
  lemma {:induction false} TrimLeadingSpace(sp: string, t: string)
    requires AllSpace(sp) && IsTrimmed(t)
    ensures TrimSpace(sp + t) == t
  {
    if sp == [] {
      assert sp + t == t;
      TrimOfTrimmed(t);
    } else {
      assert (sp + t)[0] == sp[0];
      assert (sp + t)[1..] == sp[1..] + t;
      TrimLeadingSpace(sp[1..], t);
      assert TrimLeft(sp + t) == TrimLeft(sp[1..] + t);
    }
  }

  /** strings.TrimSpace is idempotent. */
  lemma TrimSpaceIdempotent(s: string)
    ensures TrimSpace(TrimSpace(s)) == TrimSpace(s)
  {
    TrimOfTrimmed(TrimSpace(s));
  }

  /** The trim of `s` is a substring of `s`. */
  lemma TrimContained(s: string)
    ensures Contains(s, TrimSpace(s))
  {
    var r := TrimSpace(s);
    var a :| 0 <= a <= |s| - |r| && OccursAt(s, r, a) && AllSpace(s[..a]) && AllSpace(s[a + |r|..]);
    OccursAtContains(s, r, a);
  }

  /** Every slice of `s` is contained in `s`. */
  lemma SliceContained(s: string, i: int, j: int)
    requires 0 <= i <= j <= |s|
    ensures Contains(s, s[i..j])
  {
    OccursAtContains(s, s[i..j], i);
  }

  /** Containment is transitive. */
  lemma ContainsTrans(s: string, m: string, p: string)
    requires Contains(s, m) && Contains(m, p)
    ensures Contains(s, p)
  {
    var i :| 0 <= i <= |s| - |m| && OccursAt(s, m, i);
    var j :| 0 <= j <= |m| - |p| && OccursAt(m, p, j);
    var x, y := s[i + j..i + j + |p|], m[j..j + |p|];
    assert x == p by {
      assert forall t | 0 <= t < |p| :: x[t] == y[t];
    }
    OccursAtContains(s, p, i + j);
  }

  /** The trim of a suffix of `s` is a substring of `s`. */
  lemma TrimOfSuffixContained(s: string, i: int)
    requires 0 <= i <= |s|
    ensures Contains(s, TrimSpace(s[i..]))
  {
    var x := s[i..];
    SuffixContained(s, i);
    TrimContained(x);
    ContainsTrans(s, x, TrimSpace(x));
  }

  /** A suffix of `s` is contained in `s`. */
  lemma SuffixContained(s: string, i: int)
    requires 0 <= i <= |s|
    ensures Contains(s, s[i..])
  {
    assert s[i..i + |s[i..]|] == s[i..];
    OccursAtContains(s, s[i..], i);
  }

  /** The trim of a suffix of a suffix of `s` is a substring of `s`. */
  lemma TrimOfSuffixOfSuffixContained(s: string, i: int, j: int)
    requires 0 <= i <= |s| && 0 <= j <= |s| - i
    ensures Contains(s, TrimSpace(s[i..][j..]))
  {
    var y := s[i..];
    TrimOfSuffixContained(y, j);
    SuffixContained(s, i);
    ContainsTrans(s, y, TrimSpace(y[j..]));
  }

  /** A byte absent from `s` is absent from everything `s` contains. */
  lemma AbsentFromContained(s: string, p: string, c: char)
    requires Contains(s, p) && c !in s
    ensures c !in p
  {
    var i :| 0 <= i <= |s| - |p| && OccursAt(s, p, i);
    assert p == s[i..i + |p|];
  }

  // ---------------------------------------------------------------------
  // Split and Join on a one-byte separator
  // ---------------------------------------------------------------------

  /** strings.Join with a one-byte separator. */
  function Join(parts: seq<string>, sep: char): string {
    if |parts| == 0 then ""
    else if |parts| == 1 then parts[0]
    else parts[0] + [sep] + Join(parts[1..], sep)
  }

  /** strings.Split with a one-byte separator: the pieces between separators, always at least one. */
  function Split(s: string, sep: char): (parts: seq<string>)
    ensures |parts| >= 1
    ensures forall k | 0 <= k < |parts| :: sep !in parts[k]
  {
    if s == [] then [""]
    else
      var rest := Split(s[1..], sep);
      if s[0] == sep then [""] + rest
      else [[s[0]] + rest[0]] + rest[1..]
  }

  /** Joining the pieces of a split gives back the string. */
  lemma {:induction false} JoinSplit(s: string, sep: char)
    ensures Join(Split(s, sep), sep) == s
  {
    if s != [] {
      var rest := Split(s[1..], sep);
      JoinSplit(s[1..], sep);
      if s[0] != sep {
        var parts := Split(s, sep);
        if |rest| == 1 {
          assert parts == [[s[0]] + rest[0]];
        } else {
          assert parts[1..] == rest[1..];
          assert Join(rest, sep) == rest[0] + [sep] + Join(rest[1..], sep);
        }
      }
    }
  }

  /** Splitting a join of separator-free pieces gives back the pieces. */
  lemma {:induction false} SplitJoin(parts: seq<string>, sep: char)
    requires |parts| >= 1
    requires forall k | 0 <= k < |parts| :: sep !in parts[k]
    ensures Split(Join(parts, sep), sep) == parts
    decreases |parts|, |parts[0]|
  {
    var p := parts[0];
    if |parts| == 1 {
      SplitPiece(p, sep);
    } else if p == [] {
      assert Join(parts, sep) == [sep] + Join(parts[1..], sep);
      SplitJoin(parts[1..], sep);
      assert [sep] + Join(parts[1..], sep) == Join(parts, sep);
    } else {
      var tail := [p[1..]] + parts[1..];
      assert tail[1..] == parts[1..];
      assert p == [p[0]] + p[1..];
      assert p[0] in p;
      assert Join(parts, sep) == [p[0]] + Join(tail, sep);
      SplitJoin(tail, sep);
      assert Join(parts, sep)[1..] == Join(tail, sep);
      assert Split(Join(parts, sep), sep) == [[p[0]] + tail[0]] + tail[1..];
    }
  }

  /** A separator-free string splits into itself alone. */
  lemma {:induction false} SplitPiece(p: string, sep: char)
    requires sep !in p
    ensures Split(p, sep) == [p]
  {
    if p != [] {
      SplitPiece(p[1..], sep);
      assert p == [p[0]] + p[1..];
    }
  }

  /** The first piece of a split is a prefix of the string. */
  lemma {:induction false} FirstPieceIsPrefix(s: string, sep: char)
    ensures OccursAt(s, Split(s, sep)[0], 0)
  {
    if s != [] && s[0] != sep {
      FirstPieceIsPrefix(s[1..], sep);
    }
  }

  /** Every piece of a split is a substring of the split string. */
  lemma {:induction false} SplitPieceContained(s: string, sep: char, k: int)
    requires 0 <= k < |Split(s, sep)|
    ensures Contains(s, Split(s, sep)[k])
  {
    var parts := Split(s, sep);
    if k == 0 {
      FirstPieceIsPrefix(s, sep);
      OccursAtContains(s, parts[0], 0);
    } else {
      var rest := Split(s[1..], sep);
      assert parts[k] == rest[k - (if s[0] == sep then 1 else 0)];
      SplitPieceContained(s[1..], sep, k - (if s[0] == sep then 1 else 0));
      ContainsInAppend([s[0]], s[1..], parts[k]);
      assert [s[0]] + s[1..] == s;
    }
  }

  // ---------------------------------------------------------------------
  // ToUpper
  // ---------------------------------------------------------------------

  /** The upper-case form of an ASCII byte. */
  function UpperChar(c: char): char {
    if 'a' <= c <= 'z' then (c as int - 32) as char else c
  }

  /** strings.ToUpper on ASCII input. */
  function ToUpper(s: string): (r: string)
    ensures |r| == |s|
    ensures forall i | 0 <= i < |s| :: r[i] == UpperChar(s[i])
  {
    if s == [] then "" else [UpperChar(s[0])] + ToUpper(s[1..])
  }
}
