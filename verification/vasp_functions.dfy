/** The extraction routines of `vasp_functions.py`. Each file is given as
    the list of its lines, as `readlines()` or iterating the file returns
    them; opening and reading the file is not modelled. */
module VaspFunctions {
  import opened Outcomes
  import opened Text
  import opened Integers

  /** The two positions `f_postions_forces` accepts. */
  const First: string := "first"
  const Last: string := "last"

  function Min(a: int, b: int): int
  {
    if a <= b then a else b
  }

  // ----- f_total_atoms -----

  /** What a token adds to the atom count: its value when `int()` accepts
      it, nothing otherwise (the `except ValueError: pass`). */
  function TokenCount(t: string): int
  {
    match ParseInt(t)
    case Some(v) => v
    case None => 0
  }

  /** Sum of the tokens that parse as integers, every other token skipped.
      It is the total the left-to-right loop reaches: starting from 0, each
      token adds its value when it is an integer. */
  function IntTokenSum(toks: seq<string>): (total: int)
    ensures |toks| == 0 ==> total == 0
    ensures |toks| > 0 ==>
              total == IntTokenSum(toks[..|toks| - 1]) + TokenCount(toks[|toks| - 1])
    decreases |toks|
  {
    if |toks| == 0 then 0
    else
      var rest := toks[1..];
      assert |toks| > 1 ==> toks[..|toks| - 1][1..] == rest[..|rest| - 1];
      TokenCount(toks[0]) + IntTokenSum(rest)
  }

  /** The count distributes over a split of the token list. */
  lemma {:induction false} IntTokenSumAppend(a: seq<string>, b: seq<string>)
    ensures IntTokenSum(a + b) == IntTokenSum(a) + IntTokenSum(b)
    decreases |a|
  {
    if |a| == 0 {
      assert a + b == b;
    } else {
      assert (a + b)[1..] == a[1..] + b;
      IntTokenSumAppend(a[1..], b);
    }
  }

  /** A token that is not an integer changes nothing, wherever it stands. */
  lemma NonIntegerTokenSkipped(a: seq<string>, t: string, b: seq<string>)
    requires ParseInt(t).None?
    ensures IntTokenSum(a + [t] + b) == IntTokenSum(a + b)
  {
    IntTokenSumAppend(a + [t], b);
    IntTokenSumAppend(a, [t]);
    IntTokenSumAppend(a, b);
  }

  /** No token is an integer, as on an element-symbol line. */
  predicate NoIntegerToken(toks: seq<string>)
  {
    forall i | 0 <= i < |toks| :: ParseInt(toks[i]).None?
  }

  /** A line without any integer token counts zero atoms. */
  lemma {:induction false} NoIntegerTokenSumsToZero(toks: seq<string>)
    requires NoIntegerToken(toks)
    ensures IntTokenSum(toks) == 0
    decreases |toks|
  {
    if |toks| > 0 {
      NoIntegerTokenSumsToZero(toks[1..]);
    }
  }

  /** Position Python's `lines[i]` reads: a negative `i` counts from the
      end. */
  function PythonIndex(n: nat, i: int): (j: nat)
    requires -(n as int) <= i < n
    ensures j < n
  {
    if i < 0 then n + i else i
  }

  /** `f_total_atoms`: the sum of the integer tokens on line `lineNumber`
      (1-based), 0 when it has none; None when `lines[lineNumber - 1]`
      raises IndexError. */
  method TotalAtoms(lines: seq<string>, lineNumber: int) returns (total: Option<int>)
    ensures total.None? <==> !(-|lines| <= lineNumber - 1 < |lines|)
    ensures 1 <= lineNumber <= |lines| ==>
              total == Some(IntTokenSum(Split(lines[lineNumber - 1])))
    ensures total.Some? ==>
              var line := lines[PythonIndex(|lines|, lineNumber - 1)];
              && total.value == IntTokenSum(Split(line))
              && (NoIntegerToken(Split(line)) ==> total.value == 0)
  {
    if !(-|lines| <= lineNumber - 1 < |lines|) {
      return None;
    }
    var line := lines[PythonIndex(|lines|, lineNumber - 1)];
    var toks := Split(line);
    var sum := SumIntTokens(toks);
    if NoIntegerToken(toks) {
      NoIntegerTokenSumsToZero(toks);
    }
    total := Some(sum);
  }

  /** The loop of `f_total_atoms`: add `int(item)` for each token, skip a
      token on ValueError. */
  method SumIntTokens(toks: seq<string>) returns (sum: int)
    ensures sum == IntTokenSum(toks)
  {
    sum := 0;
    var i := 0;
    while i < |toks|
      invariant 0 <= i <= |toks|
      invariant sum == IntTokenSum(toks[..i])
    {
      IntTokenSumStep(toks, i);
      match ParseInt(toks[i]) {
        case Some(v) => sum := sum + v;
        case None =>
      }
      i := i + 1;
    }
    assert toks[..i] == toks;
  }

  /** One more token of the line adds its count to the running total. */
  lemma IntTokenSumStep(toks: seq<string>, i: int)
    requires 0 <= i < |toks|
    ensures IntTokenSum(toks[..i + 1]) == IntTokenSum(toks[..i]) + TokenCount(toks[i])
  {
    var prefix := toks[..i + 1];
    assert prefix[..i] == toks[..i] && prefix[i] == toks[i];
  }

  /** A POSCAR counts line written from per-species counts, possibly
      followed by words that are not integers, counts their total. */
  lemma AtomCountRoundTrip(counts: seq<int>, words: seq<string>)
    requires forall i | 0 <= i < |words| :: IsToken(words[i]) && ParseInt(words[i]).None?
    ensures IntTokenSum(Split(Unsplit(IntTokens(counts) + words))) == Sum(counts)
  {
    var toks := IntTokens(counts) + words;
    CountsLineTokens(counts, words);
    calc {
      IntTokenSum(Split(Unsplit(toks)));
      { SplitUnsplit(toks); }
      IntTokenSum(toks);
      { IntTokenSumAppend(IntTokens(counts), words); }
      IntTokenSum(IntTokens(counts)) + IntTokenSum(words);
      { IntTokensSum(counts); NoIntegerTokenSumsToZero(words); }
      Sum(counts);
    }
  }

  /** The written counts followed by the words are all tokens. */
  lemma CountsLineTokens(counts: seq<int>, words: seq<string>)
    requires forall i | 0 <= i < |words| :: IsToken(words[i])
    ensures forall i | 0 <= i < |counts| + |words| :: IsToken((IntTokens(counts) + words)[i])
  {
    var toks := IntTokens(counts) + words;
    forall i | |counts| <= i < |toks|
      ensures IsToken(toks[i])
    {
      assert toks[i] == words[i - |counts|];
    }
  }

  /** The counts line "8 4 2 Cartesian" gives 14 atoms. */
  lemma AtomCountExample()
    ensures IntTokenSum(Split(Unsplit(IntTokens([8, 4, 2]) + ["Cartesian"]))) == 14
  {
    assert IsToken("Cartesian");
    LetterTokenIsNotInt("Cartesian");
    AtomCountRoundTrip([8, 4, 2], ["Cartesian"]);
  }

  function Sum(xs: seq<int>): int
    decreases |xs|
  {
    if |xs| == 0 then 0 else xs[0] + Sum(xs[1..])
  }

  /** Each integer written as `str()` writes it. */
  function IntTokens(xs: seq<int>): (toks: seq<string>)
    ensures |toks| == |xs|
    ensures forall i | 0 <= i < |xs| :: toks[i] == IntToString(xs[i]) && IsToken(toks[i])
  {
    seq(|xs|, i requires 0 <= i < |xs| => IntToStringIsToken(xs[i]); IntToString(xs[i]))
  }

  lemma IntToStringIsToken(n: int)
    ensures IsToken(IntToString(n))
  {
  }

  lemma {:induction false} IntTokensSum(xs: seq<int>)
    ensures IntTokenSum(IntTokens(xs)) == Sum(xs)
    decreases |xs|
  {
    if |xs| > 0 {
      ParseIntRoundTrip(xs[0]);
      assert IntTokens(xs)[1..] == IntTokens(xs[1..]);
      IntTokensSum(xs[1..]);
    }
  }

  // ----- f_postions_forces -----

  /** Outcome of `f_postions_forces`, its sentinels made explicit. */
  datatype Extraction =
    | Rows(rows: seq<seq<real>>)      // the parsed block
    | KeywordNotFound                 // the source returns -1
    | BadPosition                     // the source returns -2
    | ConversionError(token: string)  // float() raised ValueError on token

  /** Forward scan: index of the first line containing `kw`. */
  function FirstMatch(lines: seq<string>, kw: string): (r: Option<nat>)
    ensures r.Some? ==> r.value < |lines| && Contains(lines[r.value], kw)
    ensures r.Some? ==> forall j | 0 <= j < r.value :: !Contains(lines[j], kw)
    ensures r.None? ==> forall j | 0 <= j < |lines| :: !Contains(lines[j], kw)
    decreases |lines|
  {
    if |lines| == 0 then None
    else if Contains(lines[0], kw) then Some(0)
    else
      match FirstMatch(lines[1..], kw)
      case None => None
      case Some(k) => Some(k + 1)
  }

  /** Backward scan: index of the last line containing `kw`. */
  function LastMatch(lines: seq<string>, kw: string): (r: Option<nat>)
    ensures r.Some? ==> r.value < |lines| && Contains(lines[r.value], kw)
    ensures r.Some? ==> forall j | r.value < j < |lines| :: !Contains(lines[j], kw)
    ensures r.None? ==> forall j | 0 <= j < |lines| :: !Contains(lines[j], kw)
    decreases |lines|
  {
    if |lines| == 0 then None
    else if Contains(lines[|lines| - 1], kw) then Some(|lines| - 1)
    else LastMatch(lines[..|lines| - 1], kw)
  }

  /** The anchor line the scan for `position` stops at. */
  function Anchor(lines: seq<string>, position: string, kw: string): Option<nat>
  {
    if position == Last then LastMatch(lines, kw) else FirstMatch(lines, kw)
  }

  /** The lines `range(start, min(start + count, len(lines)))` selects: at
      most `count` lines from `start` on, fewer when the file ends first,
      none when it starts past the end or `count` is not positive. */
  function Window(lines: seq<string>, start: nat, count: int): (w: seq<string>)
    ensures |w| <= if count < 0 then 0 else count
    ensures |w| == if start >= |lines| || count <= 0 then 0 else Min(count, |lines| - start)
    ensures forall i | 0 <= i < |w| :: w[i] == lines[start + i]
  {
    var end := Min(start + count, |lines|);
    if start < end then lines[start..end] else []
  }

  /** The tokens of one block line: `line.strip().split()`. */
  function LineTokens(line: string): seq<string>
  {
    Split(Strip(line))
  }

  /** `float()` accepts every token of the line. */
  predicate LineParses(line: string, parse: string -> Option<real>)
  {
    var toks := LineTokens(line);
    forall j | 0 <= j < |toks| :: parse(toks[j]).Some?
  }

  /** `[float(e) for e in toks]`: fails with the index of the first token
      `float()` rejects. */
  function ParseTokens(toks: seq<string>, parse: string -> Option<real>): (r: Result<seq<real>, nat>)
    ensures r.Success? <==> forall j | 0 <= j < |toks| :: parse(toks[j]).Some?
    ensures r.Success? ==> |r.value| == |toks|
    ensures r.Success? ==> forall j | 0 <= j < |toks| :: parse(toks[j]) == Some(r.value[j])
    ensures r.Failure? ==> r.error < |toks| && parse(toks[r.error]).None?
    ensures r.Failure? ==> forall j | 0 <= j < r.error :: parse(toks[j]).Some?
    decreases |toks|
  {
    if |toks| == 0 then Success([])
    else
      match parse(toks[0])
      case None => Failure(0)
      case Some(x) =>
        match ParseTokens(toks[1..], parse)
        case Failure(e) => Failure(e + 1)
        case Success(xs) => Success([x] + xs)
  }

  /** The token lists of the block lines, `line.strip().split()` each. */
  function BlockTokens(block: seq<string>): (t: seq<seq<string>>)
    ensures |t| == |block|
    ensures forall i | 0 <= i < |block| :: t[i] == LineTokens(block[i])
  {
    seq(|block|, i requires 0 <= i < |block| => LineTokens(block[i]))
  }

  /** Where conversion stopped: the block line and the token of that line. */
  datatype BadToken = BadToken(line: nat, column: nat)

  /** The conversion loop of `f_postions_forces` over the token lists of the
      block lines, in file order: the first rejected token aborts the whole
      block, and the lines before it all converted. */
  function ParseLines(lines: seq<seq<string>>, parse: string -> Option<real>)
    : (r: Result<seq<seq<real>>, BadToken>)
    ensures r.Success? <==> forall i | 0 <= i < |lines| :: ParseTokens(lines[i], parse).Success?
    ensures r.Success? ==> |r.value| == |lines|
    ensures r.Success? ==> forall i | 0 <= i < |lines| :: ParseTokens(lines[i], parse) == Success(r.value[i])
    ensures r.Failure? ==> && r.error.line < |lines|
                           && ParseTokens(lines[r.error.line], parse) == Failure(r.error.column)
    ensures r.Failure? ==> forall i | 0 <= i < r.error.line :: ParseTokens(lines[i], parse).Success?
    decreases |lines|
  {
    if |lines| == 0 then Success([])
    else
      match ParseTokens(lines[0], parse)
      case Failure(e) => Failure(BadToken(0, e))
      case Success(row) =>
        var tail := lines[1..];
        match ParseLines(tail, parse)
        case Failure(e) =>
          assert lines[e.line + 1] == tail[e.line];
          Failure(BadToken(e.line + 1, e.column))
        case Success(rows) =>
          Success([row] + rows)
  }

  /** A block converts when its first line and the rest convert. */
  lemma ParseLinesCons(lines: seq<seq<string>>, parse: string -> Option<real>)
    requires |lines| > 0
    requires ParseTokens(lines[0], parse).Success?
    requires ParseLines(lines[1..], parse).Success?
    ensures ParseLines(lines, parse)
            == Success([ParseTokens(lines[0], parse).value] + ParseLines(lines[1..], parse).value)
  {
  }

  /** A line converts exactly when `float()` accepts each of its tokens. */
  lemma LineParsesIffConverts(line: string, parse: string -> Option<real>)
    ensures LineParses(line, parse) <==> ParseTokens(LineTokens(line), parse).Success?
  {
  }

  /** The block lines after the keyword on line `k`: `count` lines from
      `k + ignored + 1` on. */
  function BlockWindow(lines: seq<string>, k: nat, count: int, ignored: nat): seq<string>
  {
    Window(lines, k + ignored + 1, count)
  }

  /** The block after the keyword on line `k`: skip `ignored` lines, convert
      up to `count` lines. */
  function BlockAt(lines: seq<string>, k: nat, count: int, ignored: nat, parse: string -> Option<real>): Extraction
  {
    var toks := BlockTokens(BlockWindow(lines, k, count, ignored));
    match ParseLines(toks, parse)
    case Success(rows) => Rows(rows)
    case Failure(bad) => ConversionError(toks[bad.line][bad.column])
  }

  /** `f_postions_forces` on the lines of OUTCAR, with `float()` given as
      `parse`. */
  function PositionsForces(lines: seq<string>, totalLines: int, linesIgnored: nat,
                           position: string, keyword: string,
                           parse: string -> Option<real>): (r: Extraction)
    ensures r.BadPosition? <==> position != First && position != Last
    ensures (position == First || position == Last) ==>
              (r.KeywordNotFound? <==> forall i | 0 <= i < |lines| :: !Contains(lines[i], keyword))
    ensures r.Rows? ==> |r.rows| <= if totalLines < 0 then 0 else totalLines
  {
    if position == Last || position == First then
      match Anchor(lines, position, keyword)
      case None => KeywordNotFound
      case Some(k) => BlockAt(lines, k, totalLines, linesIgnored, parse)
    else
      BadPosition
  }

  /** Once the keyword is found, the call is the block after the anchor. */
  lemma FoundKeywordGivesBlock(lines: seq<string>, totalLines: int, linesIgnored: nat,
                               position: string, keyword: string, parse: string -> Option<real>)
    requires position == First || position == Last
    requires Anchor(lines, position, keyword).Some?
    ensures PositionsForces(lines, totalLines, linesIgnored, position, keyword, parse)
            == BlockAt(lines, Anchor(lines, position, keyword).value, totalLines, linesIgnored, parse)
  {
  }

  /** The block after line `k` is the converted rows, or the conversion
      error at the first rejected token. */
  lemma BlockAtOutcome(lines: seq<string>, k: nat, count: int, ignored: nat, parse: string -> Option<real>)
    ensures
      var w := BlockWindow(lines, k, count, ignored);
      var p := ParseLines(BlockTokens(w), parse);
      && (p.Success? ==> BlockAt(lines, k, count, ignored, parse) == Rows(p.value))
      && (p.Failure? ==> BlockAt(lines, k, count, ignored, parse)
                         == ConversionError(LineTokens(w[p.error.line])[p.error.column]))
  {
  }

  /** With `last`, the block follows the greatest line holding the keyword. */
  lemma LastAnchorsAtGreatestMatch(lines: seq<string>, totalLines: int, linesIgnored: nat,
                                   keyword: string, parse: string -> Option<real>, k: nat)
    requires k < |lines| && Contains(lines[k], keyword)
    requires forall j | k < j < |lines| :: !Contains(lines[j], keyword)
    ensures PositionsForces(lines, totalLines, linesIgnored, Last, keyword, parse)
            == BlockAt(lines, k, totalLines, linesIgnored, parse)
  {
    var r := LastMatch(lines, keyword);
    assert r.Some?;
  }

  /** With `first`, the block follows the least line holding the keyword. */
  lemma FirstAnchorsAtLeastMatch(lines: seq<string>, totalLines: int, linesIgnored: nat,
                                 keyword: string, parse: string -> Option<real>, k: nat)
    requires k < |lines| && Contains(lines[k], keyword)
    requires forall j | 0 <= j < k :: !Contains(lines[j], keyword)
    ensures PositionsForces(lines, totalLines, linesIgnored, First, keyword, parse)
            == BlockAt(lines, k, totalLines, linesIgnored, parse)
  {
    var r := FirstMatch(lines, keyword);
    assert r.Some?;
  }

  /** When the keyword occurs on one line only, `first` and `last` agree. */
  lemma SingleOccurrenceFirstIsLast(lines: seq<string>, totalLines: int, linesIgnored: nat,
                                    keyword: string, parse: string -> Option<real>, k: nat)
    requires k < |lines| && Contains(lines[k], keyword)
    requires forall j | 0 <= j < |lines| && j != k :: !Contains(lines[j], keyword)
    ensures PositionsForces(lines, totalLines, linesIgnored, First, keyword, parse)
            == PositionsForces(lines, totalLines, linesIgnored, Last, keyword, parse)
  {
    FirstAnchorsAtLeastMatch(lines, totalLines, linesIgnored, keyword, parse, k);
    LastAnchorsAtGreatestMatch(lines, totalLines, linesIgnored, keyword, parse, k);
  }

  /** Each returned row holds one number per token of its source line, in
      token order, the source lines being the window after the anchor. */
  lemma RowsFollowWindowTokens(lines: seq<string>, totalLines: int, linesIgnored: nat,
                               position: string, keyword: string, parse: string -> Option<real>)
    requires PositionsForces(lines, totalLines, linesIgnored, position, keyword, parse).Rows?
    ensures Anchor(lines, position, keyword).Some?
    ensures
      var rows := PositionsForces(lines, totalLines, linesIgnored, position, keyword, parse).rows;
      var w := BlockWindow(lines, Anchor(lines, position, keyword).value, totalLines, linesIgnored);
      && |rows| == |w|
      && forall i | 0 <= i < |w| ::
           && |rows[i]| == |Split(w[i])|
           && forall j | 0 <= j < |rows[i]| :: parse(Split(w[i])[j]) == Some(rows[i][j])
  {
    var r := PositionsForces(lines, totalLines, linesIgnored, position, keyword, parse);
    var k := Anchor(lines, position, keyword).value;
    var w := BlockWindow(lines, k, totalLines, linesIgnored);
    var p := ParseLines(BlockTokens(w), parse);
    assert r == BlockAt(lines, k, totalLines, linesIgnored, parse);
    assert p.Success? && r.rows == p.value;
    BlockRows(w, parse);
  }

  /** A converted block has one row per line, holding the numbers of the
      line's whitespace tokens in order. */
  lemma BlockRows(block: seq<string>, parse: string -> Option<real>)
    requires ParseLines(BlockTokens(block), parse).Success?
    ensures
      var rows := ParseLines(BlockTokens(block), parse).value;
      && |rows| == |block|
      && forall i | 0 <= i < |block| ::
           && |rows[i]| == |Split(block[i])|
           && forall j | 0 <= j < |rows[i]| :: parse(Split(block[i])[j]) == Some(rows[i][j])
  {
    var toks := BlockTokens(block);
    var rows := ParseLines(toks, parse).value;
    forall i | 0 <= i < |block|
      ensures |rows[i]| == |Split(block[i])|
      ensures forall j | 0 <= j < |rows[i]| :: parse(Split(block[i])[j]) == Some(rows[i][j])
    {
      SplitIgnoresStrip(block[i]);
      assert toks[i] == Split(block[i]);
      assert ParseTokens(toks[i], parse) == Success(rows[i]);
    }
  }

  /** A token `float()` rejects anywhere in the window makes the whole call
      fail, and only such a token does. */
  lemma ConversionErrorIffBadToken(lines: seq<string>, totalLines: int, linesIgnored: nat,
                                   position: string, keyword: string, parse: string -> Option<real>)
    requires position == First || position == Last
    requires Anchor(lines, position, keyword).Some?
    ensures
      var w := BlockWindow(lines, Anchor(lines, position, keyword).value, totalLines, linesIgnored);
      PositionsForces(lines, totalLines, linesIgnored, position, keyword, parse).ConversionError?
      <==> exists i | 0 <= i < |w| :: !LineParses(w[i], parse)
  {
    var r := PositionsForces(lines, totalLines, linesIgnored, position, keyword, parse);
    var k := Anchor(lines, position, keyword).value;
    var w := BlockWindow(lines, k, totalLines, linesIgnored);
    FoundKeywordGivesBlock(lines, totalLines, linesIgnored, position, keyword, parse);
    BlockAtFailsIffBadLine(lines, k, totalLines, linesIgnored, parse);
  }

  lemma BlockAtFailsIffBadLine(lines: seq<string>, k: nat, count: int, ignored: nat,
                               parse: string -> Option<real>)
    ensures
      var w := BlockWindow(lines, k, count, ignored);
      BlockAt(lines, k, count, ignored, parse).ConversionError?
      <==> exists i | 0 <= i < |w| :: !LineParses(w[i], parse)
  {
    BlockAtOutcome(lines, k, count, ignored, parse);
    BlockFailsIffBadLine(BlockWindow(lines, k, count, ignored), parse);
  }

  /** A block fails to convert exactly when one of its lines does not. */
  lemma BlockFailsIffBadLine(block: seq<string>, parse: string -> Option<real>)
    ensures ParseLines(BlockTokens(block), parse).Failure?
            <==> exists i | 0 <= i < |block| :: !LineParses(block[i], parse)
  {
    var toks := BlockTokens(block);
    forall i | 0 <= i < |block|
      ensures LineParses(block[i], parse) <==> ParseTokens(toks[i], parse).Success?
    {
      LineParsesIffConverts(block[i], parse);
    }
  }

  /** `t` is token `j` of window line `i`, `float()` rejects it, and it
      accepts every token before it in file order: every token of the
      earlier lines and every earlier token of line `i`. */
  predicate IsFirstBadToken(w: seq<string>, parse: string -> Option<real>, t: string, i: int, j: int)
  {
    && 0 <= i < |w| && 0 <= j < |LineTokens(w[i])|
    && LineTokens(w[i])[j] == t
    && parse(t).None?
    && (forall l | 0 <= l < i :: LineParses(w[l], parse))
    && (forall m | 0 <= m < j :: parse(LineTokens(w[i])[m]).Some?)
  }

  /** The token a conversion error names is the first one `float()` rejects
      in the window after the anchor. */
  lemma ConversionErrorNamesFirstBadToken(lines: seq<string>, totalLines: int, linesIgnored: nat,
                                          position: string, keyword: string,
                                          parse: string -> Option<real>)
    requires PositionsForces(lines, totalLines, linesIgnored, position, keyword, parse).ConversionError?
    ensures Anchor(lines, position, keyword).Some?
    ensures
      var t := PositionsForces(lines, totalLines, linesIgnored, position, keyword, parse).token;
      var w := BlockWindow(lines, Anchor(lines, position, keyword).value, totalLines, linesIgnored);
      exists i, j :: IsFirstBadToken(w, parse, t, i, j)
  {
    ConversionErrorFoundKeyword(lines, totalLines, linesIgnored, position, keyword, parse);
    FoundKeywordGivesBlock(lines, totalLines, linesIgnored, position, keyword, parse);
    BlockAtNamesFirstBadToken(lines, Anchor(lines, position, keyword).value, totalLines, linesIgnored, parse,
                              PositionsForces(lines, totalLines, linesIgnored, position, keyword, parse).token);
  }

  /** A conversion error means the position was valid and the keyword found. */
  lemma ConversionErrorFoundKeyword(lines: seq<string>, totalLines: int, linesIgnored: nat,
                                    position: string, keyword: string,
                                    parse: string -> Option<real>)
    requires PositionsForces(lines, totalLines, linesIgnored, position, keyword, parse).ConversionError?
    ensures position == First || position == Last
    ensures Anchor(lines, position, keyword).Some?
  {
  }

  /** The error of a failing block after line `k` names its first rejected
      token. */
  lemma BlockAtNamesFirstBadToken(lines: seq<string>, k: nat, count: int, ignored: nat,
                                  parse: string -> Option<real>, t: string)
    requires BlockAt(lines, k, count, ignored, parse) == ConversionError(t)
    ensures exists i, j :: IsFirstBadToken(BlockWindow(lines, k, count, ignored), parse, t, i, j)
  {
    var w := BlockWindow(lines, k, count, ignored);
    var p := ParseLines(BlockTokens(w), parse);
    BlockAtOutcome(lines, k, count, ignored, parse);
    BlockFailureAtFirstBadToken(w, parse);
    assert IsFirstBadToken(w, parse, t, p.error.line, p.error.column);
  }

  /** Where a block stops converting: the first line that does not convert,
      at that line's first rejected token. */
  lemma BlockFailureAtFirstBadToken(block: seq<string>, parse: string -> Option<real>)
    requires ParseLines(BlockTokens(block), parse).Failure?
    ensures
      var e := ParseLines(BlockTokens(block), parse).error;
      && e.line < |block|
      && e.column < |LineTokens(block[e.line])|
      && parse(LineTokens(block[e.line])[e.column]).None?
      && (forall l | 0 <= l < e.line :: LineParses(block[l], parse))
      && (forall m | 0 <= m < e.column :: parse(LineTokens(block[e.line])[m]).Some?)
  {
    var toks := BlockTokens(block);
    var e := ParseLines(toks, parse).error;
    assert toks[e.line] == LineTokens(block[e.line]);
    forall l | 0 <= l < e.line
      ensures LineParses(block[l], parse)
    {
      LineParsesIffConverts(block[l], parse);
    }
  }

  /** A window that starts past the end of the file yields no rows, which is
      not the keyword-not-found outcome. */
  lemma WindowPastEndIsEmpty(lines: seq<string>, totalLines: int, linesIgnored: nat,
                             position: string, keyword: string, parse: string -> Option<real>)
    requires position == First || position == Last
    requires Anchor(lines, position, keyword).Some?
    requires Anchor(lines, position, keyword).value + linesIgnored + 1 >= |lines| || totalLines <= 0
    ensures PositionsForces(lines, totalLines, linesIgnored, position, keyword, parse) == Rows([])
  {
  }

  /** The lines a block of numbers is written as, with `show` rendering one
      number as a token. */
  function RenderBlock(rows: seq<seq<real>>, show: real -> string): (block: seq<string>)
    ensures |block| == |rows|
    ensures forall i | 0 <= i < |rows| :: block[i] == Unsplit(RenderRow(rows[i], show))
  {
    seq(|rows|, i requires 0 <= i < |rows| => Unsplit(RenderRow(rows[i], show)))
  }

  function RenderRow(row: seq<real>, show: real -> string): (toks: seq<string>)
    ensures |toks| == |row|
    ensures forall j | 0 <= j < |row| :: toks[j] == show(row[j])
  {
    seq(|row|, j requires 0 <= j < |row| => show(row[j]))
  }

  /** `show` writes each number of the row as a token `float()` reads back
      exactly. */
  predicate RowWrittenExactly(row: seq<real>, parse: string -> Option<real>, show: real -> string)
  {
    forall j | 0 <= j < |row| :: IsToken(show(row[j])) && parse(show(row[j])) == Some(row[j])
  }

  /** Every number of the block is written as a token read back exactly. */
  predicate WrittenExactly(rows: seq<seq<real>>, parse: string -> Option<real>, show: real -> string)
  {
    forall i | 0 <= i < |rows| :: RowWrittenExactly(rows[i], parse, show)
  }

  lemma {:induction false} ParseRenderedTokens(toks: seq<string>, row: seq<real>,
                                               parse: string -> Option<real>)
    requires |toks| == |row|
    requires forall j | 0 <= j < |row| :: parse(toks[j]) == Some(row[j])
    ensures ParseTokens(toks, parse) == Success(row)
    decreases |toks|
  {
    if |toks| > 0 {
      ParseRenderedTokens(toks[1..], row[1..], parse);
      assert row == [row[0]] + row[1..];
    }
  }

  /** Parsing one written line gives back its numbers. */
  lemma ParseRenderedLine(row: seq<real>, parse: string -> Option<real>, show: real -> string)
    requires RowWrittenExactly(row, parse, show)
    ensures ParseTokens(LineTokens(Unsplit(RenderRow(row, show))), parse) == Success(row)
  {
    var toks := RenderRow(row, show);
    assert forall j | 0 <= j < |toks| :: toks[j] == show(row[j]);
    SplitUnsplit(toks);
    SplitIgnoresStrip(Unsplit(toks));
    ParseRenderedTokens(toks, row, parse);
  }

  /** Parsing a written block gives back its numbers. */
  lemma {:induction false} ParseRenderedBlock(rows: seq<seq<real>>, parse: string -> Option<real>,
                                              show: real -> string)
    requires WrittenExactly(rows, parse, show)
    ensures ParseLines(BlockTokens(RenderBlock(rows, show)), parse) == Success(rows)
    decreases |rows|
  {
    if |rows| > 0 {
      var block := RenderBlock(rows, show);
      var toks := BlockTokens(block);
      WrittenExactlyTail(rows, parse, show);
      ParseRenderedLine(rows[0], parse, show);
      assert toks[0] == LineTokens(Unsplit(RenderRow(rows[0], show)));
      RenderBlockTail(rows, show);
      BlockTokensTail(block);
      ParseRenderedBlock(rows[1..], parse, show);
      ParseLinesCons(toks, parse);
      assert rows == [rows[0]] + rows[1..];
    }
  }

  lemma WrittenExactlyTail(rows: seq<seq<real>>, parse: string -> Option<real>, show: real -> string)
    requires |rows| > 0 && WrittenExactly(rows, parse, show)
    ensures RowWrittenExactly(rows[0], parse, show)
    ensures WrittenExactly(rows[1..], parse, show)
  {
    assert forall i | 0 <= i < |rows| - 1 :: rows[1..][i] == rows[i + 1];
  }

  lemma RenderBlockTail(rows: seq<seq<real>>, show: real -> string)
    requires |rows| > 0
    ensures RenderBlock(rows, show)[1..] == RenderBlock(rows[1..], show)
  {
  }

  lemma BlockTokensTail(block: seq<string>)
    requires |block| > 0
    ensures BlockTokens(block)[1..] == BlockTokens(block[1..])
  {
  }

  /** The window after a heading, `skipped` lines and a written block is
      that block. */
  lemma WindowOfBlock(pre: seq<string>, header: string, skipped: seq<string>,
                      block: seq<string>, post: seq<string>)
    ensures Window(pre + [header] + skipped + block + post, |pre| + |skipped| + 1, |block|) == block
  {
    var lines := pre + [header] + skipped + block + post;
    var w := Window(lines, |pre| + |skipped| + 1, |block|);
    assert forall i | 0 <= i < |block| :: lines[|pre| + |skipped| + 1 + i] == block[i];
  }

  /** Writing a block after the first heading and extracting it with
      `first` gives back the written numbers. */
  lemma FirstRoundTrip(pre: seq<string>, header: string, skipped: seq<string>,
                       rows: seq<seq<real>>, post: seq<string>, keyword: string,
                       parse: string -> Option<real>, show: real -> string)
    requires WrittenExactly(rows, parse, show)
    requires Contains(header, keyword)
    requires forall i | 0 <= i < |pre| :: !Contains(pre[i], keyword)
    ensures PositionsForces(pre + [header] + skipped + RenderBlock(rows, show) + post,
                            |rows|, |skipped|, First, keyword, parse) == Rows(rows)
  {
    var block := RenderBlock(rows, show);
    var lines := pre + [header] + skipped + block + post;
    assert lines[|pre|] == header;
    assert forall j | 0 <= j < |pre| :: lines[j] == pre[j];
    FirstAnchorsAtLeastMatch(lines, |rows|, |skipped|, keyword, parse, |pre|);
    WindowOfBlock(pre, header, skipped, block, post);
    ParseRenderedBlock(rows, parse, show);
  }

  /** Writing a block after the last heading and extracting it with `last`
      gives back the written numbers. */
  lemma LastRoundTrip(pre: seq<string>, header: string, skipped: seq<string>,
                      rows: seq<seq<real>>, post: seq<string>, keyword: string,
                      parse: string -> Option<real>, show: real -> string)
    requires WrittenExactly(rows, parse, show)
    requires Contains(header, keyword)
    requires forall i | 0 <= i < |skipped + RenderBlock(rows, show) + post| ::
               !Contains((skipped + RenderBlock(rows, show) + post)[i], keyword)
    ensures PositionsForces(pre + [header] + skipped + RenderBlock(rows, show) + post,
                            |rows|, |skipped|, Last, keyword, parse) == Rows(rows)
  {
    var block := RenderBlock(rows, show);
    var tail := skipped + block + post;
    var lines := pre + [header] + skipped + block + post;
    assert lines == pre + [header] + tail;
    assert lines[|pre|] == header;
    assert forall j | |pre| < j < |lines| :: lines[j] == tail[j - |pre| - 1];
    LastAnchorsAtGreatestMatch(lines, |rows|, |skipped|, keyword, parse, |pre|);
    WindowOfBlock(pre, header, skipped, block, post);
    ParseRenderedBlock(rows, parse, show);
  }

  // ----- f_find_string_in_file -----

  /** Indices of the lines containing `s`, in increasing order. */
  function MatchingLines(lines: seq<string>, s: string): (idx: seq<nat>)
    ensures |idx| <= |lines|
    ensures forall i | 0 <= i < |idx| :: idx[i] < |lines| && Contains(lines[idx[i]], s)
    ensures forall i, j | 0 <= i < j < |idx| :: idx[i] < idx[j]
    ensures forall k | 0 <= k < |lines| && Contains(lines[k], s) :: k in idx
    decreases |lines|
  {
    if |lines| == 0 then []
    else
      var p := MatchingLines(lines[..|lines| - 1], s);
      if Contains(lines[|lines| - 1], s) then p + [|lines| - 1] else p
  }

  /** `f_find_string_in_file`: the stripped form of every line containing
      `s`, one per matching line, in file order. */
  function FindString(lines: seq<string>, s: string): (found: seq<string>)
    ensures |found| <= |lines|
    ensures |found| == |MatchingLines(lines, s)|
    ensures forall i | 0 <= i < |found| :: found[i] == Strip(lines[MatchingLines(lines, s)[i]])
    ensures forall i | 0 <= i < |found| :: NoEdgeSpace(found[i])
    decreases |lines|
  {
    if |lines| == 0 then []
    else
      var n := |lines| - 1;
      var rest := FindString(lines[..n], s);
      var found := if Contains(lines[n], s) then rest + [Strip(lines[n])] else rest;
      FindStringStep(lines, s, rest);
      found
  }

  /** The findings of all but the last line, extended by the last line when
      it matches, are the stripped lines at the matching indices. */
  lemma FindStringStep(lines: seq<string>, s: string, rest: seq<string>)
    requires |lines| > 0
    requires |rest| == |MatchingLines(lines[..|lines| - 1], s)|
    requires forall i | 0 <= i < |rest| ::
               rest[i] == Strip(lines[..|lines| - 1][MatchingLines(lines[..|lines| - 1], s)[i]])
    ensures
      var n := |lines| - 1;
      var found := if Contains(lines[n], s) then rest + [Strip(lines[n])] else rest;
      && |found| == |MatchingLines(lines, s)|
      && forall i | 0 <= i < |found| :: found[i] == Strip(lines[MatchingLines(lines, s)[i]])
  {
    MatchingLinesStep(lines, s);
  }

  /** The matches of all lines are those of all but the last line, then the
      last line when it matches. */
  lemma MatchingLinesStep(lines: seq<string>, s: string)
    requires |lines| > 0
    ensures
      var n := |lines| - 1;
      var m := MatchingLines(lines[..n], s);
      var idx := MatchingLines(lines, s);
      && |idx| == (if Contains(lines[n], s) then |m| + 1 else |m|)
      && (forall i | 0 <= i < |m| :: idx[i] == m[i] && lines[idx[i]] == lines[..n][m[i]])
      && (Contains(lines[n], s) ==> idx[|m|] == n)
  {
    var n := |lines| - 1;
    var m := MatchingLines(lines[..n], s);
    assert MatchingLines(lines, s) == if Contains(lines[n], s) then m + [n] else m;
  }

  /** Reading the file in two parts and concatenating the findings gives the
      findings of the whole file: the scan is in file order. */
  lemma {:induction false} FindStringAppend(a: seq<string>, b: seq<string>, s: string)
    ensures FindString(a + b, s) == FindString(a, s) + FindString(b, s)
    decreases |b|
  {
    if |b| == 0 {
      assert a + b == a;
    } else {
      var p := b[..|b| - 1];
      var x := b[|b| - 1];
      assert a + b == (a + p) + [x];
      assert b == p + [x];
      var tail := if Contains(x, s) then [Strip(x)] else [];
      calc {
        FindString(a + b, s);
        { FindStringSnoc(a + p, x, s); }
        FindString(a + p, s) + tail;
        { FindStringAppend(a, p, s); }
        (FindString(a, s) + FindString(p, s)) + tail;
        FindString(a, s) + (FindString(p, s) + tail);
        { FindStringSnoc(p, x, s); }
        FindString(a, s) + FindString(b, s);
      }
    }
  }

  /** One more line adds its stripped form exactly when it contains `s`. */
  lemma FindStringSnoc(lines: seq<string>, x: string, s: string)
    ensures FindString(lines + [x], s)
            == FindString(lines, s) + (if Contains(x, s) then [Strip(x)] else [])
  {
    var l := lines + [x];
    assert l[..|l| - 1] == lines;
    assert l[|l| - 1] == x;
  }

  /** When every line contains `s`, every line is kept, stripped. */
  lemma {:induction false} FindStringAllMatch(lines: seq<string>, s: string)
    requires forall i | 0 <= i < |lines| :: Contains(lines[i], s)
    ensures |FindString(lines, s)| == |lines|
    ensures forall i | 0 <= i < |lines| :: FindString(lines, s)[i] == Strip(lines[i])
    decreases |lines|
  {
    if |lines| > 0 {
      var p := lines[..|lines| - 1];
      FindStringAllMatch(p, s);
      var fp := FindString(p, s);
      var f := FindString(lines, s);
      assert Contains(lines[|lines| - 1], s);
      assert f == fp + [Strip(lines[|lines| - 1])];
      forall i | 0 <= i < |lines|
        ensures f[i] == Strip(lines[i])
      {
        if i < |p| {
          assert f[i] == fp[i] == Strip(p[i]);
        }
      }
    }
  }

  /** No line containing `s` means nothing found. */
  lemma FindStringNoMatch(lines: seq<string>, s: string)
    requires forall i | 0 <= i < |lines| :: !Contains(lines[i], s)
    ensures FindString(lines, s) == []
  {
    var idx := MatchingLines(lines, s);
  }

  /** A string with no whitespace at its ends is still present in every
      stripped result. */
  lemma FindStringKeepsNeedle(lines: seq<string>, s: string)
    requires NoEdgeSpace(s)
    ensures forall i | 0 <= i < |FindString(lines, s)| :: Contains(FindString(lines, s)[i], s)
  {
    var found := FindString(lines, s);
    var idx := MatchingLines(lines, s);
    forall i | 0 <= i < |found|
      ensures Contains(found[i], s)
    {
      StripKeepsOccurrence(lines[idx[i]], s);
    }
  }

  /** A needle with trailing whitespace can be stripped away: the line
      `t + " "` is found for `t + " "`, but the result `t` no longer holds it. */
  lemma FindStringMayLoseEdgeSpace(t: string)
    requires IsToken(t)
    ensures FindString([t + " "], t + " ") == [t]
    ensures !Contains(t, t + " ")
  {
    var line := t + " ";
    assert OccursAt(line, line, 0);
    assert LeadingSpaces(line) == 0;
    var r := Strip(line);
    assert line[..|line| - 1] == t;
    assert TrailingSpaces(line) == 1;
    assert r == t;
    var lines: seq<string> := [line];
    assert lines[..0] == [];
  }
}
