/** Python's string primitives used by the extraction routines: whitespace
    (`str.isspace`), `str.strip()`, `str.split()` with no separator, and the
    substring test `sub in s`. */
module Text {

  /** The characters for which Python's `str.isspace` holds. */
  predicate IsSpace(c: char)
    ensures '!' <= c <= '~' ==> !IsSpace(c)
    ensures c == ' ' || c == '\t' || c == '\n' || c == '\r' ==> IsSpace(c)
  {
    || c == ' '
    || ('\t' <= c <= '\r')
    || ('\U{1C}' <= c <= '\U{1F}')
    || c == '\U{85}'
    || c == '\U{A0}'
    || c == '\U{1680}'
    || ('\U{2000}' <= c <= '\U{200A}')
    || c == '\U{2028}'
    || c == '\U{2029}'
    || c == '\U{202F}'
    || c == '\U{205F}'
    || c == '\U{3000}'
  }

  predicate AllSpace(s: string)
  {
    forall i | 0 <= i < |s| :: IsSpace(s[i])
  }

  /** A token as `str.split()` produces it: non-empty, no whitespace inside. */
  predicate IsToken(t: string)
  {
    |t| > 0 && forall i | 0 <= i < |t| :: !IsSpace(t[i])
  }

  /** Neither the first nor the last character is whitespace. */
  predicate NoEdgeSpace(s: string)
  {
    |s| == 0 || (!IsSpace(s[0]) && !IsSpace(s[|s| - 1]))
  }

  /** `kw` occurs in `line` starting at index `i`. */
  predicate OccursAt(line: string, kw: string, i: int)
  {
    0 <= i && i + |kw| <= |line| && line[i..i + |kw|] == kw
  }

  /** Python's `kw in line`; the empty string occurs in every string. */
  predicate Contains(line: string, kw: string)
    ensures |kw| == 0 ==> Contains(line, kw)
    ensures kw == line ==> Contains(line, kw)
    ensures Contains(line, kw) ==> |kw| <= |line|
  {
    assert kw == line || |kw| == 0 ==> OccursAt(line, kw, 0);
    exists i | 0 <= i <= |line| - |kw| :: OccursAt(line, kw, i)
  }

  /** Number of whitespace characters at the start of `s`. */
  function LeadingSpaces(s: string): (n: nat)
    ensures n <= |s|
    ensures forall i | 0 <= i < n :: IsSpace(s[i])
    ensures n < |s| ==> !IsSpace(s[n])
  {
    if |s| == 0 || !IsSpace(s[0]) then 0
    else 1 + LeadingSpaces(s[1..])
  }

  /** Number of whitespace characters at the end of `s`. */
  function TrailingSpaces(s: string): (n: nat)
    ensures n <= |s|
    ensures forall i | |s| - n <= i < |s| :: IsSpace(s[i])
    ensures n < |s| ==> !IsSpace(s[|s| - 1 - n])
  {
    if |s| == 0 || !IsSpace(s[|s| - 1]) then 0
    else 1 + TrailingSpaces(s[..|s| - 1])
  }

  /** The first non-space character lies before the trailing whitespace. */
  lemma LeadBeforeTrail(s: string)
    requires LeadingSpaces(s) < |s|
    ensures LeadingSpaces(s) < |s| - TrailingSpaces(s)
  {
  }

  /** Where `s.strip()` ends: after the last non-space character, or at the
      end of `s` when it is whitespace only. */
  function StripEnd(s: string): (e: nat)
    ensures LeadingSpaces(s) <= e <= |s|
    ensures forall i | e <= i < |s| :: IsSpace(s[i])
    ensures LeadingSpaces(s) < e ==> !IsSpace(s[e - 1])
  {
    if LeadingSpaces(s) == |s| then |s|
    else
      LeadBeforeTrail(s);
      |s| - TrailingSpaces(s)
  }

  /** Python's `s.strip()`: the result neither starts nor ends with
      whitespace (see `StripIsTrimmedSlice` for what it is a slice of). */
  function Strip(s: string): (r: string)
    ensures |r| <= |s|
    ensures NoEdgeSpace(r)
  {
    var a, e := LeadingSpaces(s), StripEnd(s);
    var r := s[a..e];
    assert |r| > 0 ==> r[0] == s[a] && r[|r| - 1] == s[e - 1];
    r
  }

  /** `s` is `s.strip()` surrounded by whitespace only. */
  lemma StripIsTrimmedSlice(s: string)
    ensures LeadingSpaces(s) + |Strip(s)| <= |s|
    ensures Strip(s) == s[LeadingSpaces(s)..LeadingSpaces(s) + |Strip(s)|]
    ensures AllSpace(s[..LeadingSpaces(s)])
    ensures AllSpace(s[LeadingSpaces(s) + |Strip(s)|..])
  {
    StripIsSlice(s);
    SpaceBeforeStrip(s);
    SpaceAfterStrip(s);
  }

  lemma StripIsSlice(s: string)
    ensures LeadingSpaces(s) + |Strip(s)| == StripEnd(s)
    ensures Strip(s) == s[LeadingSpaces(s)..StripEnd(s)]
  {
  }

  lemma SpaceBeforeStrip(s: string)
    ensures AllSpace(s[..LeadingSpaces(s)])
  {
    var a := LeadingSpaces(s);
    assert forall k | 0 <= k < a :: s[..a][k] == s[k];
  }

  lemma SpaceAfterStrip(s: string)
    ensures AllSpace(s[StripEnd(s)..])
  {
    var e := StripEnd(s);
    assert forall k | 0 <= k < |s| - e :: s[e..][k] == s[e + k];
  }

  /** Length of the run of non-whitespace characters that starts `s`. */
  function TokenLength(s: string): (n: nat)
    ensures n <= |s|
    ensures forall i | 0 <= i < n :: !IsSpace(s[i])
    ensures n < |s| ==> IsSpace(s[n])
  {
    if |s| == 0 || IsSpace(s[0]) then 0 else 1 + TokenLength(s[1..])
  }

  /** Python's `s.split()`: the maximal runs of non-whitespace characters,
      left to right. */
  function Split(s: string): (toks: seq<string>)
    ensures forall i | 0 <= i < |toks| :: IsToken(toks[i])
    decreases |s|
  {
    if |s| == 0 then []
    else if IsSpace(s[0]) then Split(s[1..])
    else
      var n := TokenLength(s);
      [s[..n]] + Split(s[n..])
  }

  /** Leading whitespace produces no token. */
  lemma {:induction false} SplitDropsLeadingSpace(sp: string, s: string)
    requires AllSpace(sp)
    ensures Split(sp + s) == Split(s)
    decreases |sp|
  {
    if |sp| > 0 {
      assert (sp + s)[1..] == sp[1..] + s;
      SplitDropsLeadingSpace(sp[1..], s);
    } else {
      assert sp + s == s;
    }
  }

  /** A token followed by whitespace (or by nothing) is split off whole. */
  lemma SplitToken(t: string, rest: string)
    requires IsToken(t)
    requires |rest| == 0 || IsSpace(rest[0])
    ensures Split(t + rest) == [t] + Split(rest)
  {
    var s := t + rest;
    TokenLengthOfToken(t, rest);
    assert s[..|t|] == t;
    assert s[|t|..] == rest;
  }

  lemma {:induction false} TokenLengthOfToken(t: string, rest: string)
    requires forall i | 0 <= i < |t| :: !IsSpace(t[i])
    requires |rest| == 0 || IsSpace(rest[0])
    ensures TokenLength(t + rest) == |t|
    decreases |t|
  {
    if |t| > 0 {
      assert (t + rest)[1..] == t[1..] + rest;
      TokenLengthOfToken(t[1..], rest);
    } else {
      assert t + rest == rest;
    }
  }

  /** Trailing whitespace produces no token. */
  lemma {:induction false} SplitDropsTrailingSpace(s: string, sp: string)
    requires AllSpace(sp)
    ensures Split(s + sp) == Split(s)
    decreases |s|
  {
    if |s| == 0 {
      assert s + sp == sp;
      SplitDropsLeadingSpace(sp, "");
      assert sp + "" == sp;
    } else if IsSpace(s[0]) {
      assert (s + sp)[1..] == s[1..] + sp;
      SplitDropsTrailingSpace(s[1..], sp);
    } else {
      var n := TokenLength(s);
      var t := s[..n];
      assert s == t + s[n..];
      assert s + sp == t + (s[n..] + sp);
      if n < |s| {
        SplitToken(t, s[n..] + sp);
      } else {
        assert s[n..] + sp == sp;
        SplitToken(t, sp);
      }
      SplitDropsTrailingSpace(s[n..], sp);
    }
  }

  /** Python's `line.strip().split()` equals `line.split()`. */
  lemma SplitIgnoresStrip(s: string)
    ensures Split(Strip(s)) == Split(s)
  {
    var a, e := LeadingSpaces(s), StripEnd(s);
    var r := Strip(s);
    StripIsSlice(s);
    SpaceBeforeStrip(s);
    SpaceAfterStrip(s);
    var lead, trail := s[..a], s[e..];
    ThreeWaySplit(s, a, e);
    SplitDropsLeadingSpace(lead, r + trail);
    SplitDropsTrailingSpace(r, trail);
  }

  /** Cutting `s` at `a` and `e` and joining the pieces gives `s` back. */
  lemma ThreeWaySplit(s: string, a: int, e: int)
    requires 0 <= a <= e <= |s|
    ensures s == s[..a] + (s[a..e] + s[e..])
  {
    assert s[a..] == s[a..e] + s[e..];
    assert s == s[..a] + s[a..];
  }

  /** Stripping never loses an occurrence of a word that has no whitespace
      at its ends. */
  lemma StripKeepsOccurrence(line: string, kw: string)
    requires NoEdgeSpace(kw)
    requires Contains(line, kw)
    ensures Contains(Strip(line), kw)
  {
    var i :| 0 <= i <= |line| - |kw| && OccursAt(line, kw, i);
    if |kw| > 0 {
      StripKeepsOccurrenceAt(line, kw, i);
      assert OccursAt(Strip(line), kw, i - LeadingSpaces(line));
    } else {
      assert OccursAt(Strip(line), kw, 0);
    }
  }

  /** The occurrence at `i` survives stripping, shifted by the leading
      whitespace. */
  lemma StripKeepsOccurrenceAt(line: string, kw: string, i: int)
    requires |kw| > 0 && NoEdgeSpace(kw)
    requires OccursAt(line, kw, i)
    ensures OccursAt(Strip(line), kw, i - LeadingSpaces(line))
  {
    var a, b := LeadingSpaces(line), StripEnd(line);
    OccurrenceEnds(line, kw, i);
    LeadingSpaceBefore(line, i);
    TrailingSpaceAfter(line, i + |kw| - 1);
    StripIsSlice(line);
    OccursInSlice(line, kw, a, b, i);
  }

  /** The first and last characters of an occurrence are those of `kw`. */
  lemma OccurrenceEnds(line: string, kw: string, i: int)
    requires |kw| > 0
    requires OccursAt(line, kw, i)
    ensures line[i] == kw[0] && line[i + |kw| - 1] == kw[|kw| - 1]
  {
    var e := i + |kw|;
    assert line[i..e][0] == line[i];
    assert line[i..e][|kw| - 1] == line[e - 1];
  }

  /** An occurrence inside the window `s[a..b]` is an occurrence in it. */
  lemma OccursInSlice(s: string, kw: string, a: int, b: int, i: int)
    requires 0 <= a <= i && i + |kw| <= b <= |s|
    requires OccursAt(s, kw, i)
    ensures OccursAt(s[a..b], kw, i - a)
  {
    var e := i + |kw|;
    assert forall k | 0 <= k < |kw| :: s[a..b][i - a..e - a][k] == s[i..e][k];
    assert s[a..b][i - a..e - a] == s[i..e];
  }

  /** A non-space character of `line` lies at or after the stripped start. */
  lemma LeadingSpaceBefore(line: string, i: int)
    requires 0 <= i < |line|
    requires !IsSpace(line[i])
    ensures LeadingSpaces(line) <= i
  {
  }

  /** A non-space character of `line` lies before the stripped end. */
  lemma TrailingSpaceAfter(line: string, j: int)
    requires 0 <= j < |line|
    requires !IsSpace(line[j])
    ensures j < LeadingSpaces(line) + |Strip(line)|
  {
    StripIsSlice(line);
  }

  /** Everything found in the stripped line was in the line. */
  lemma StripOccurrenceInLine(line: string, kw: string)
    requires Contains(Strip(line), kw)
    ensures Contains(line, kw)
  {
    var r := Strip(line);
    var a := LeadingSpaces(line);
    StripIsTrimmedSlice(line);
    var i :| 0 <= i <= |r| - |kw| && OccursAt(r, kw, i);
    OccursFromSlice(line, kw, a, a + |r|, i);
  }

  /** An occurrence in the window `s[a..b]` is an occurrence in `s`. */
  lemma OccursFromSlice(s: string, kw: string, a: int, b: int, i: int)
    requires 0 <= a <= b <= |s|
    requires OccursAt(s[a..b], kw, i)
    ensures OccursAt(s, kw, a + i)
  {
    var e := i + |kw|;
    assert forall k | 0 <= k < |kw| :: s[a..b][i..e][k] == s[a + i..a + e][k];
    assert s[a..b][i..e] == s[a + i..a + e];
  }

  /** A line that `str.split()` turns back into `toks`: each token preceded
      by one blank, the line ended by a newline (" t0 t1 t2\n"). */
  function Unsplit(toks: seq<string>): (line: string)
    ensures |line| > 0 && IsSpace(line[0])
    decreases |toks|
  {
    if |toks| == 0 then "\n" else " " + toks[0] + Unsplit(toks[1..])
  }

  /** `Unsplit` is a right inverse of `Split` on tokens. */
  lemma {:induction false} SplitUnsplit(toks: seq<string>)
    requires forall i | 0 <= i < |toks| :: IsToken(toks[i])
    ensures Split(Unsplit(toks)) == toks
    decreases |toks|
  {
    if |toks| == 0 {
      assert Split("\n"[1..]) == [];
    } else {
      var rest := Unsplit(toks[1..]);
      assert " " + toks[0] + rest == " " + (toks[0] + rest);
      SplitDropsLeadingSpace(" ", toks[0] + rest);
      SplitToken(toks[0], rest);
      SplitUnsplit(toks[1..]);
    }
  }
}
