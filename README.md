# Taylor–Green vortex statistics: reader and time correction

This project models the data side of `eCSE1303/tgv/plot_tgv.py`, a script
that compares the Taylor–Green vortex statistics of two flow solvers, X3D and
E3D ("Eric"). It has two parts.

- **`read_stats`** reads a whitespace-delimited table, one record per line. A
  line whose first character is `#` is a comment and is skipped. Every other
  line is split on runs of whitespace. Token 0 is appended to the time list
  `t`, token 1 to the enstrophy list `enst` and token 3 to the kinetic-energy
  list `ke`. Token 2 is never read.
- **The driver** reads both solvers' files. It then adds `1.0e-2` to every
  X3D time value in place, to correct a known shift of one time step in that
  solver's output.

How the model is built:

- The file is given as the sequence of its lines (`seq<string>`, each line
  with its newline, as Python's file iteration yields it).
- `float(token)` is the parameter `parse: string -> Option<real>`. `None`
  stands for the `ValueError` it raises. Every property holds for every such
  parser.
- Exceptions become `Err` values of `Stats.Error`:
  - `EmptyLine`: `row[0]` on an empty line, an `IndexError`;
  - `MissingToken`: `words[k]` on a line with too few tokens, an `IndexError`;
  - `NotANumber`: a token that does not parse.
  
  Each error carries the 0-based line index. Errors are checked in the order
  the loop body meets them: `words[0]`, then its parse, then `words[1]`, and
  so on.
- `Tokens.Split` is Python's argument-less `str.split()`. It splits on the
  characters `str.isspace()` accepts.
- `Stats.ReadStats` is the loop itself: three lists, one pass, early exit on
  the first failure. It is proved equal to `Stats.ReadStatsSpec`. That
  definition has two layers. `Stats.RowOf` is what the loop body does with one
  line: skip it, produce a record, or raise. `Stats.Collect` is the loop over
  those per-line outcomes, by recursion on the last line read. The lemmas are
  about these definitions.
- `Driver.ShiftTimes` is the in-place loop over an array.
  `Driver.PrepareSeries` stands for the script's lines 33–38. It copies the
  lists into arrays, as Python lists are mutable, and shifts the time array.

## Model

| member | source | states |
|---|---|---|
| Tokens.Split | eCSE1303/tgv/plot_tgv.py:12 | every token `row.split()` produces is non-empty and free of whitespace |
| Tokens.SplitJoin | eCSE1303/tgv/plot_tgv.py:12 | round trip: splitting tokens joined by blanks returns exactly those tokens |
| Tokens.SplitKeepsNonSpace | eCSE1303/tgv/plot_tgv.py:12 | the tokens, concatenated, are the line with all whitespace removed: nothing but whitespace is dropped, order is kept |
| Tokens.SplitEmptyIff | eCSE1303/tgv/plot_tgv.py:12 | a line splits to no tokens exactly when it is all whitespace (a blank line `"\n"` included) |
| Tokens.SplitTrailingSpace | eCSE1303/tgv/plot_tgv.py:12 | trailing whitespace (the newline kept by file iteration) does not change the tokens |
| Tokens.SplitLeadingSpace | eCSE1303/tgv/plot_tgv.py:12 | leading whitespace of any length and kind yields no token: an indented line splits like the unindented one |
| Tokens.SplitWord | eCSE1303/tgv/plot_tgv.py:12 | a token followed by a run of one or more whitespace characters is split off as exactly that token, and the run is dropped: `"a  b"` gives `a` then the tokens of `b`, never `ab` |
| Stats.Collect | eCSE1303/tgv/plot_tgv.py:10-15 | the loop over per-line outcomes only ever appends to the three lists together, so on success they have equal length |
| Stats.IsComment | eCSE1303/tgv/plot_tgv.py:11 | the comment test `row[0] == "#"` on a non-empty line |
| Stats.CommentFirstCharOnly | eCSE1303/tgv/plot_tgv.py:11 | a line is a comment exactly when its first character is `#`, whatever follows; a line starting with whitespace is never a comment |
| Stats.DataLines | eCSE1303/tgv/plot_tgv.py:10-11 | the lines the loop reads as data: no comment among them, each taken from the file, every non-comment line of the file included, never more than the file's lines |
| Stats.Field | eCSE1303/tgv/plot_tgv.py:13-15 | `float(words[k])`: succeeds exactly when token `k` exists and parses, with the parsed value; `MissingToken` when the line has too few tokens (IndexError), `NotANumber` with the token when it does not parse (ValueError) |
| Stats.RowOf | eCSE1303/tgv/plot_tgv.py:11-15 | the loop body on one line: skipped exactly when the line is a comment; a failure names that line's index; a record holds the parsed tokens 0, 1 and 3 of a line with at least 4 tokens |
| Stats.Outcomes | eCSE1303/tgv/plot_tgv.py:10-15 | one outcome per line, in file order: line `j` is skipped exactly when it is a comment, and a failure at position `j` names line `j` |
| Stats.Records | eCSE1303/tgv/plot_tgv.py:13-15 | the outcomes that append to the lists, in order; every one is a record |
| Stats.ReadStatsSpec | eCSE1303/tgv/plot_tgv.py:4-17 | a successful read gives three lists of equal length |
| Stats.ReadRow | eCSE1303/tgv/plot_tgv.py:11-15 | the loop body for one line (comment test, split, three indexings and conversions, each able to raise) computes exactly `RowOf` |
| Stats.CollectErrorPersists | eCSE1303/tgv/plot_tgv.py:10-15 | once the loop has raised, later outcomes do not change the result |
| Stats.CollectStep | eCSE1303/tgv/plot_tgv.py:11-15 | one iteration without a raise: a comment leaves the lists unchanged, a record appends one value to each list |
| Stats.CollectStops | eCSE1303/tgv/plot_tgv.py:13-15 | the first raising line ends the read with its error |
| Stats.CollectOkIff | eCSE1303/tgv/plot_tgv.py:10-15 | the loop completes if and only if no line's outcome is a failure |
| Stats.CollectFirstFailure | eCSE1303/tgv/plot_tgv.py:10-15 | a failed loop reports the first failing outcome, and no earlier outcome fails |
| Stats.CollectLength | eCSE1303/tgv/plot_tgv.py:13-15 | on success the lists hold one entry per record |
| Stats.CollectRecords | eCSE1303/tgv/plot_tgv.py:13-15 | entry `i` of the three lists is the `i`-th record, in order |
| Stats.RowOfRecord | eCSE1303/tgv/plot_tgv.py:11-15 | a record comes from a non-comment line with at least 4 tokens whose tokens 0, 1 and 3 parse to its values, whatever the line's index |
| Stats.OutcomesPrefix | eCSE1303/tgv/plot_tgv.py:10 | the lines are handled one at a time in file order: a prefix of the file has a prefix of the outcomes |
| Stats.RecordsAreDataLines | eCSE1303/tgv/plot_tgv.py:10-15 | when every line is readable, the records are those of the non-comment lines, in file order |
| Stats.ReadStats | eCSE1303/tgv/plot_tgv.py:4-17 | the append loop returns exactly `ReadStatsSpec`, and on success three lists whose common length is the number of non-comment lines |
| Stats.ErrorPersists | eCSE1303/tgv/plot_tgv.py:10-15 | once a line has raised, the lines after it do not change the outcome |
| Stats.ReadStatsLength | eCSE1303/tgv/plot_tgv.py:10-15 | on success the output length equals the number of lines whose first character is not `#` |
| Stats.ReadStatsSucceedsIff | eCSE1303/tgv/plot_tgv.py:11-15 | the read succeeds if and only if every line is non-empty and every non-comment line has at least 4 tokens whose tokens 0, 1 and 3 parse |
| Stats.RowOfReadable | eCSE1303/tgv/plot_tgv.py:11-15 | the loop body fails on a line exactly when the line is not readable, reports that line's index, and skips a line exactly when its first character is `#` |
| Stats.ReadStatsFirstFailure | eCSE1303/tgv/plot_tgv.py:10-15 | a failed read reports the first unreadable line: that line fails the loop body with this error, and all earlier lines are readable |
| Stats.ShortDataLineFails | eCSE1303/tgv/plot_tgv.py:12-15 | any non-comment line with fewer than 4 tokens makes the read fail |
| Stats.BlankLineFails | eCSE1303/tgv/plot_tgv.py:11-13 | a whitespace-only line after readable lines passes the `#` test and fails with token 0 missing on that line |
| Stats.ReadStatsRow | eCSE1303/tgv/plot_tgv.py:10-15 | order and projection: `t[i]`, `enst[i]`, `ke[i]` are the parsed tokens 0, 1 and 3 of the i-th non-comment line |
| Stats.CommentIgnored | eCSE1303/tgv/plot_tgv.py:11 | inserting a comment line anywhere changes neither success nor a successful result |
| Stats.ReadableWithComment | eCSE1303/tgv/plot_tgv.py:11 | inserting a comment line keeps every line readable exactly when every line was |
| Stats.DataLinesWithComment | eCSE1303/tgv/plot_tgv.py:11 | inserting a comment line leaves the non-comment lines unchanged |
| Stats.DataLinesAppend | eCSE1303/tgv/plot_tgv.py:10-11 | the non-comment lines of two concatenated files are those of the first followed by those of the second |
| Stats.SameDataSameColumns | eCSE1303/tgv/plot_tgv.py:10-15 | two successful reads with the same non-comment lines give the same lists |
| Stats.UnusedColumnsIgnored | eCSE1303/tgv/plot_tgv.py:12-15 | files whose lines agree on tokens 0, 1 and 3 (or are both comments) give equal results: token 2, tokens after 3 and spacing never matter |
| Stats.SplitFourTokens | eCSE1303/tgv/plot_tgv.py:12 | a line of four blank-separated tokens with its newline splits into those four tokens |
| Stats.RowOfFourTokens | eCSE1303/tgv/plot_tgv.py:11-15 | a four-token data line yields the parsed tokens 0, 1 and 3, whatever token 2 is |
| Stats.TwoRowExample | eCSE1303/tgv/plot_tgv.py:4-17 | a comment line followed by two four-token rows (such as `0.0 1.0 9.0 2.0` and `1.0 1.5 9.0 2.5`) gives `t`, `enst`, `ke` holding tokens 0, 1 and 3 of the two rows in order, whatever token 2 is |
| Stats.ExampleOutcomes | eCSE1303/tgv/plot_tgv.py:11-15 | in that file the comment is skipped and each row yields its tokens 0, 1 and 3 |
| Stats.CollectCommentAndTwoRecords | eCSE1303/tgv/plot_tgv.py:10-15 | a skip followed by two records gives two-element lists in record order |
| Stats.IndentedHashIsData | eCSE1303/tgv/plot_tgv.py:11-13 | a line with whitespace before a `#` token is data, not a comment: the `#` token becomes token 0 and, if it does not parse, the read fails with that token on line 0 |
| Driver.Shifted | eCSE1303/tgv/plot_tgv.py:37-38 | the shifted series has the same length and each value differs from the original by exactly the offset |
| Driver.ShiftedInverse | eCSE1303/tgv/plot_tgv.py:37-38 | in the real-number model only, shifting by the negated offset restores the original series (IEEE doubles do not promise this) |
| Driver.ShiftedTwice | eCSE1303/tgv/plot_tgv.py:37-38 | in the real-number model only, two shifts compose to one shift by the sum of the offsets (IEEE addition is not associative) |
| Driver.ShiftTimes | eCSE1303/tgv/plot_tgv.py:37-38 | after the in-place loop, `t[i] == old(t[i]) + offset` for every index; only `t` is modified, and its length is fixed (it is an array) |
| Driver.ToArray | eCSE1303/tgv/plot_tgv.py:33-38 | a Python list as a fresh mutable array with exactly the list's elements, so the shift cannot alias another series |
| Driver.PrepareSeries | eCSE1303/tgv/plot_tgv.py:33-38 | the X3D file is read first and its failure is reported first; on success the X3D times are the raw times shifted by `TimeCorrection`, the `1.0e-2` of line 38, while X3D's `enst` and `ke` and the whole E3D series are the raw reads unchanged |

## Left out

- `plot_stats` (plot_tgv.py:18-31) and the two calls to it (plot_tgv.py:40-47): drawing, legends, labels and writing `.eps` files are calls into matplotlib, with no data semantics to check.
- File I/O: `open` and the `with` block (plot_tgv.py:9), and the fixed paths `./x3d/time_evol.dat` and `./e3d/time_evol.dat`. The model takes each file's lines as a sequence.
- The syntax of numeric literals accepted by `float()`. The parser is a parameter, so every result holds for any parser.
- IEEE double rounding and special values: times are `real`, so `x + 0.01` is exact in the model. Python's `float()` also accepts `nan`, `inf` and `-inf`, which have no `real` counterpart; for those values `Driver.Shifted`'s `r[i] - s[i] == offset` does not describe the source, and `Driver.ShiftedInverse` and `Driver.ShiftedTwice` hold only for reals.
- Lists that are discarded on failure: in the source a row can append to `t` before a later token raises. The exception then discards all three lists, so the model returns only the error.
- Driver.ShiftTimes: its length-preservation promise is not written as an ensures. It holds by construction, because Dafny arrays have a fixed length.
- Determinism: `read_stats` reads nothing but its input. In the model this is a consequence of `ReadStatsSpec` being a function of `lines` and `parse`, so no separate lemma is stated.
- Other revisions of this script skip a single header line instead of comment lines, or take the kinetic energy from token 2. Those revisions are not part of this model. This file uses comment lines and token 3 only.
- Error reports: the source raises a bare `IndexError` or `ValueError`, with no file name or line number. The model's errors carry the line index so that the lemmas can say which line fails. The driver adds which of the two files failed.
