# VASP text extraction, modelled in Dafny

This project models the text-extraction core of a small VASP post-processing
tool: the three routines of `vasp_functions.py` that read the POSCAR atom-count
line, the TOTAL-FORCE position/force block of OUTCAR, and every OUTCAR line
holding a marker such as `TOTEN`. Each file is modelled as the sequence of its
lines, as `readlines()` (or iterating the open file) returns them. Lines may
keep their trailing newline.

Modules:

- `Outcomes` (`outcomes.dfy`): `Option` and `Result`.
- `Text` (`text.dfy`): Python's whitespace (`str.isspace`), `str.strip()`,
  `str.split()` and the substring test `kw in line`. It also has `Unsplit`,
  which writes tokens back onto a line, so round trips can be stated.
- `Integers` (`integers.dfy`): `int(token)` in base 10 (optional sign, digits,
  single underscores between digits) and the `str(n)` it inverts.
- `VaspFunctions` (`vasp_functions.dfy`):
  - `TotalAtoms` models `f_total_atoms`.
  - `PositionsForces` models `f_postions_forces`.
  - `FindString` models `f_find_string_in_file`.

Design points:

- The sentinels of `f_postions_forces` become constructors of `Extraction`:
  - `KeywordNotFound` is the source's `-1`.
  - `BadPosition` is the source's `-2`.
  - A `ValueError` from `float()` becomes `ConversionError(token)`.
  - A successful call gives `Rows(rows)`.
- `float()` is not modelled. It is a parameter `parse: string -> Option<real>`,
  and every property holds for every such parser. The round-trip lemmas assume
  only that the numbers actually written are written by `show` as tokens that
  `parse` reads back exactly (`WrittenExactly`); nothing is assumed about any
  other number, so a parser whose results are bounded, as doubles are, meets
  the hypothesis.
- `TotalAtoms` follows Python indexing for the line number:
  - A non-positive `lineNumber` reads from the end of the file.
  - An index outside the file is an `IndexError`, returned as `None`.

Behaviour of the source worth noting, which the model keeps:

- The block is not checked to have six numbers per line. A row has one number
  per token, whatever the count.
- The file is read before the position argument is examined.
- A line number past the end of POSCAR raises `IndexError`. A line number of
  zero or below reads from the end of the file.

## Model

| member | source | states |
|---|---|---|
| VaspFunctions.TotalAtoms | vasp_functions.py:24-38 | The atom count is the sum of exactly the integer tokens of the selected line (1-based, negative indices from the end). It is 0 when no token is an integer. It is None exactly when the index is outside the file (IndexError). |
| VaspFunctions.SumIntTokens | vasp_functions.py:31-36 | The loop over the tokens ends with the total `IntTokenSum` defines: every token `int()` accepts added once, in order, every other token skipped. |
| VaspFunctions.IntTokenSum | vasp_functions.py:31-36 | The total of a token list is the total of all but its last token plus what the last token adds: its value when `int()` accepts it, nothing when it raises ValueError. An empty list totals 0, the starting value. |
| VaspFunctions.IntTokenSumAppend | vasp_functions.py:31-36 | The running total over the tokens is additive over any split of the token list. This is the invariant of the accumulation loop. |
| VaspFunctions.NonIntegerTokenSkipped | vasp_functions.py:33-36 | A token that `int()` rejects contributes nothing, wherever it stands. |
| VaspFunctions.NoIntegerTokenSumsToZero | vasp_functions.py:31-38 | A line with no integer token, such as an element-name line, yields 0. |
| VaspFunctions.AtomCountRoundTrip | vasp_functions.py:28-38 | A counts line written from per-species counts, optionally followed by non-integer words, yields the sum of the counts. |
| VaspFunctions.AtomCountExample | vasp_functions.py:28-38 | The counts line written from the counts 8, 4 and 2 followed by "Cartesian" has token sum 14, the value `TotalAtoms` returns for that line. |
| VaspFunctions.IntTokensSum | vasp_functions.py:31-36 | Integers written as decimal tokens are summed back to their exact total. |
| Integers.ParseInt | vasp_functions.py:34 | `int()` accepts a token exactly when it is an optional sign followed by digits and single underscores, starting and ending with a digit. Any other character, a doubled or trailing underscore, or a sign in the middle ("1a", "12-3", "1__0", "1_") is rejected. |
| Integers.DigitRunIsDigitGroups | vasp_functions.py:34 | The recursive digit-run grammar accepts exactly the strings of digits and single underscores that start and end with a digit. |
| Integers.ParseIntSignsAndZeros | vasp_functions.py:34 | For any digit run d, `int(d)`, `int("+" + d)` and `int("0" + d)` are the value of d, and `int("-" + d)` is its negation. |
| Integers.ParseIntExamples | vasp_functions.py:34 | `int("1_000")` is 1000; "1a", "12-3", "1__0" and "1_" raise ValueError. |
| Integers.IntToString | vasp_functions.py:34 | `str(n)` starts with a minus sign exactly when n is negative, is digits otherwise, and has no leading zero unless n is 0. |
| Integers.ParseIntRoundTrip | vasp_functions.py:34 | `int(str(n)) == n` for every integer n. |
| Integers.LetterTokenIsNotInt | vasp_functions.py:34-36 | A token starting with a letter (an element symbol, "Cartesian") raises ValueError, so it is skipped. |
| Integers.NatToStringValue | vasp_functions.py:34 | The decimal digits written for n have value n. |
| Text.Split | vasp_functions.py:29 | `str.split()` yields non-empty tokens with no whitespace inside. |
| Text.IsSpace | vasp_functions.py:32 | The separators `str.split()` and `str.strip()` use include space, tab, newline and carriage return; no visible ASCII character is one. |
| Text.SplitUnsplit | vasp_functions.py:90 | Splitting a line written from tokens gives back exactly those tokens, in order. |
| Text.SplitIgnoresStrip | vasp_functions.py:90 | `line.strip().split()` equals `line.split()`. |
| Text.SplitDropsLeadingSpace | vasp_functions.py:90 | Leading whitespace yields no token. |
| Text.SplitDropsTrailingSpace | vasp_functions.py:90 | Trailing whitespace yields no token. |
| Text.Strip | vasp_functions.py:116 | The result of `strip()` is no longer than the line and neither starts nor ends with whitespace. |
| Text.StripIsTrimmedSlice | vasp_functions.py:116 | The line is the result of `strip()` with only whitespace before and after it. |
| Text.StripKeepsOccurrence | vasp_functions.py:115-116 | Stripping keeps every occurrence of a needle that has no edge whitespace. |
| Text.StripOccurrenceInLine | vasp_functions.py:115-116 | Whatever occurs in the stripped line occurs in the line. |
| Text.Contains | vasp_functions.py:115 | `s in line`: the empty string is in every line, a line is in itself, and a string longer than the line is never in it. |
| VaspFunctions.FirstMatch | vasp_functions.py:68-72 | The forward scan returns the least index whose line contains the keyword, or None when no line does. |
| VaspFunctions.LastMatch | vasp_functions.py:63-67 | The backward scan returns the greatest index whose line contains the keyword, or None when no line does. |
| VaspFunctions.Window | vasp_functions.py:81-82 | The copied lines are `lines[start + i]`, in order. There are at most `count` of them, fewer when the file ends first, and none when the window starts past the end. |
| VaspFunctions.ParseTokens | vasp_functions.py:92 | Conversion succeeds iff `float()` accepts every token, giving one number per token in order. Otherwise it fails at the first rejected token: every earlier token was accepted. |
| VaspFunctions.ParseLines | vasp_functions.py:88-92 | The block converts iff every line converts, giving one row per line in file order. Otherwise it fails at the first line that does not convert (every earlier line converted), at that line's first rejected token. |
| VaspFunctions.PositionsForces | vasp_functions.py:61-96 | The result is `-2` (BadPosition) iff the position is neither 'first' nor 'last'. For a valid position it is `-1` (KeywordNotFound) iff no line contains the keyword. A row list never has more than `in_total_lines` rows. |
| VaspFunctions.LastAnchorsAtGreatestMatch | vasp_functions.py:63-67 | With 'last', the block follows the greatest line index holding the keyword. |
| VaspFunctions.FirstAnchorsAtLeastMatch | vasp_functions.py:68-72 | With 'first', the block follows the least line index holding the keyword. |
| VaspFunctions.SingleOccurrenceFirstIsLast | vasp_functions.py:62-72 | With a single occurrence of the keyword, 'first' and 'last' give the same result. |
| VaspFunctions.RowsFollowWindowTokens | vasp_functions.py:79-94 | The rows correspond one to one with the window lines after the anchor plus the ignored lines. Each row holds one number per whitespace token of its line, in token order. |
| VaspFunctions.ConversionErrorIffBadToken | vasp_functions.py:88-92 | Once the keyword is found, the call fails on conversion iff some window line has a token `float()` rejects. |
| VaspFunctions.ConversionErrorNamesFirstBadToken | vasp_functions.py:88-92 | The token a conversion error reports is the one Python's ValueError would name: it is rejected, every earlier window line converts, and every earlier token of its line is accepted. |
| VaspFunctions.WindowPastEndIsEmpty | vasp_functions.py:79-82 | A found keyword whose window (anchor + ignored lines + 1) starts at or past the end of the file, or a non-positive line count, gives an empty row list, not `-1`. |
| VaspFunctions.ParseRenderedBlock | vasp_functions.py:88-92 | Converting a block whose numbers are each written as a token `float()` reads back exactly gives back those numbers, row by row. |
| VaspFunctions.FirstRoundTrip | vasp_functions.py:68-94 | Take a block written after the first keyword line and the skipped lines, each of its numbers written as a token `float()` reads back exactly. Extracting it with 'first' returns the written numbers. |
| VaspFunctions.LastRoundTrip | vasp_functions.py:63-94 | Take a block written after the last keyword line and the skipped lines, each of its numbers written as a token `float()` reads back exactly. Extracting it with 'last' returns the written numbers. |
| VaspFunctions.MatchingLines | vasp_functions.py:114-116 | The indices of the lines containing the string, strictly increasing, with no matching line missing. |
| VaspFunctions.FindString | vasp_functions.py:111-118 | One result per matching line. Result i is the stripped form of the i-th matching line. No result has edge whitespace. There are never more results than lines. |
| VaspFunctions.FindStringAppend | vasp_functions.py:113-116 | Scanning a file in two parts and concatenating the results equals scanning it whole, so file order is kept. |
| VaspFunctions.FindStringAllMatch | vasp_functions.py:114-116 | When every line contains the string (three TOTEN lines, say), every line is returned stripped, in top-to-bottom order. |
| VaspFunctions.FindStringNoMatch | vasp_functions.py:111-118 | No matching line gives an empty list. |
| VaspFunctions.FindStringKeepsNeedle | vasp_functions.py:115-116 | If the string has no leading or trailing whitespace, every result still contains it. |
| VaspFunctions.FindStringMayLoseEdgeSpace | vasp_functions.py:115-116 | A string with trailing whitespace can match a line whose stripped result no longer contains it. |

## Left out

- File access is not modelled: `open`, `readlines`, iteration over the file, and `os.path.join` for `POSCAR`/`OUTCAR`. Each file is given as its list of lines. A missing file (which `f_postions_forces` hits before it examines the position) and text-mode newline translation are outside the model.
- `float()` semantics (IEEE rounding, "nan", "inf", the full accepted grammar) are abstracted into the `parse` parameter. The round trips are stated for any parser and writer that agree exactly on the numbers written.
- Integers.ParseInt: non-ASCII decimal digits, which Python's `int()` also accepts, are treated as non-integers.
- Integers.ParseInt: the limit Python 3.11 and later put on `int()` of a decimal string (over 4300 digits raises ValueError, so `f_total_atoms` would skip such a token) is not modelled; the model accepts digit runs of any length and adds them to the total.
- A negative `in_lines_ignored` is not modelled (the parameter is a `nat`). Python would index from the end of the file or raise IndexError.
- Default arguments (`in_line_number=7`, `in_position='last'`, `in_keyword='TOTAL-FORCE'`) are not modelled: every call passes all of its arguments.
- `general_funcitions.py` (`find_folders_with_string`) is directory listing with no logic of its own and is not part of this model.
- `vasp_forces_main.py` is not part of this model: the driver script, its NumPy displacement and norm arithmetic on floats, and its matplotlib plots. The driver does not check the `-1`/`-2` sentinels.
