/** The statistics reader `read_stats`: it walks the lines of a
    whitespace-delimited table, skips comment lines (first character `#`),
    and from every other line takes token 0 as the time, token 1 as the
    enstrophy and token 3 as the kinetic energy, appending each to its own
    list. The file is given as the sequence of its lines; the conversion
    `float(token)` is the parameter `parse`, `None` standing for the
    `ValueError` it raises on a malformed token.

    The reader is specified in two layers: `RowOf` is what the loop body
    does with one line, and `Collect` is how the loop combines the outcomes
    of successive lines. */
module Stats {
  import opened Tokens

  datatype Option<T> = None | Some(value: T)

  datatype Result<T, E> = Ok(value: T) | Err(error: E)

  /** Why a read fails; `row` is the 0-based index of the offending line. */
  datatype Error =
    | EmptyLine(row: nat)                     // `row[0]` on "" raises IndexError
    | MissingToken(row: nat, index: nat)      // `words[index]` raises IndexError
    | NotANumber(row: nat, token: string)     // `float(token)` raises ValueError

  /** The three parallel lists `t`, `enst`, `ke`. */
  datatype Columns = Columns(t: seq<real>, enst: seq<real>, ke: seq<real>)

  /** What one line contributes. */
  datatype Row = Comment | Record(t: real, enst: real, ke: real) | Failure(error: Error)

  /** Column layout of the input: time, enstrophy, (ignored), kinetic energy. */
  const TimeColumn: nat := 0
  const EnstrophyColumn: nat := 1
  const EnergyColumn: nat := 3

  /** The comment test: it looks at the first character only. */
  predicate IsComment(line: string)
  {
    |line| > 0 && line[0] == '#'
  }

  /** Only the first character decides: whatever follows it, a line is a
      comment exactly when it starts with `#`, so an indented `#` is not. */
  lemma CommentFirstCharOnly(c: char, rest: string)
    ensures IsComment([c] + rest) <==> c == '#'
    ensures IsSpace(c) ==> !IsComment([c] + rest)
  {
    assert ([c] + rest)[0] == c;
  }

  /** The lines that are read as data, in file order. */
  function DataLines(lines: seq<string>): (d: seq<string>)
    ensures |d| <= |lines|
    ensures forall i :: 0 <= i < |d| ==> !IsComment(d[i]) && d[i] in lines
    ensures forall j :: 0 <= j < |lines| && !IsComment(lines[j]) ==> lines[j] in d
  {
    if lines == [] then []
    else
      var prefix := DataLines(lines[..|lines| - 1]);
      if IsComment(lines[|lines| - 1]) then prefix else prefix + [lines[|lines| - 1]]
  }

  /** `float(words[k])` for the line at index `row`. */
  function Field(words: seq<string>, k: nat, row: nat, parse: string -> Option<real>): (r: Result<real, Error>)
    ensures r.Ok? <==> k < |words| && parse(words[k]).Some?
    ensures r.Ok? ==> parse(words[k]) == Some(r.value)
    ensures k >= |words| ==> r == Err(MissingToken(row, k))
    ensures k < |words| && parse(words[k]).None? ==> r == Err(NotANumber(row, words[k]))
  {
    if k >= |words| then Err(MissingToken(row, k))
    else match parse(words[k])
      case None => Err(NotANumber(row, words[k]))
      case Some(x) => Ok(x)
  }

  /** The effect of the loop body on the line at index `row`, with the
      failures in the order the body meets them. */
  function RowOf(line: string, row: nat, parse: string -> Option<real>): (o: Row)
    ensures o.Comment? <==> IsComment(line)
    ensures o.Failure? ==> o.error.row == row
    ensures o.Record? ==>
              var words := Split(line);
              && |words| > EnergyColumn
              && parse(words[TimeColumn]) == Some(o.t)
              && parse(words[EnstrophyColumn]) == Some(o.enst)
              && parse(words[EnergyColumn]) == Some(o.ke)
  {
    if |line| == 0 then Failure(EmptyLine(row))
    else if line[0] == '#' then Comment
    else
      var words := Split(line);
      match Field(words, TimeColumn, row, parse)
      case Err(e) => Failure(e)
      case Ok(t) =>
        match Field(words, EnstrophyColumn, row, parse)
        case Err(e) => Failure(e)
        case Ok(enst) =>
          match Field(words, EnergyColumn, row, parse)
          case Err(e) => Failure(e)
          case Ok(ke) => Record(t, enst, ke)
  }

  /** A line the loop body gets through without raising. */
  predicate RowReadable(line: string, parse: string -> Option<real>)
  {
    && |line| > 0
    && (line[0] != '#' ==>
          var words := Split(line);
          && |words| > EnergyColumn
          && parse(words[TimeColumn]).Some?
          && parse(words[EnstrophyColumn]).Some?
          && parse(words[EnergyColumn]).Some?)
  }

  /** The outcome of the loop body on every line, in file order. */
  function Outcomes(lines: seq<string>, parse: string -> Option<real>): (r: seq<Row>)
    ensures |r| == |lines|
    ensures forall j :: 0 <= j < |r| ==> (r[j].Comment? <==> IsComment(lines[j]))
    ensures forall j :: 0 <= j < |r| && r[j].Failure? ==> r[j].error.row == j
  {
    seq(|lines|, j requires 0 <= j < |lines| => RowOf(lines[j], j, parse))
  }

  /** The loop over per-line outcomes: a comment adds nothing, a record
      appends once to each of the three lists, a failure ends the read. */
  function Collect(rows: seq<Row>): (r: Result<Columns, Error>)
    ensures r.Ok? ==> |r.value.t| == |r.value.enst| == |r.value.ke|
    decreases |rows|
  {
    if rows == [] then Ok(Columns([], [], []))
    else
      match Collect(rows[..|rows| - 1])
      case Err(e) => Err(e)
      case Ok(c) =>
        match rows[|rows| - 1]
        case Comment => Ok(c)
        case Failure(e) => Err(e)
        case Record(t, enst, ke) => Ok(Columns(c.t + [t], c.enst + [enst], c.ke + [ke]))
  }

  /** What `read_stats` returns for a file with these lines. */
  function ReadStatsSpec(lines: seq<string>, parse: string -> Option<real>): (r: Result<Columns, Error>)
    ensures r.Ok? ==> |r.value.t| == |r.value.enst| == |r.value.ke|
  {
    Collect(Outcomes(lines, parse))
  }

  /** The records among `rows`, in order. */
  function Records(rows: seq<Row>): (rs: seq<Row>)
    ensures forall i :: 0 <= i < |rs| ==> rs[i].Record?
  {
    if rows == [] then []
    else
      var prefix := Records(rows[..|rows| - 1]);
      if rows[|rows| - 1].Record? then prefix + [rows[|rows| - 1]] else prefix
  }

  /** The body of the loop for the line at index `i`: the comment test on
      `row[0]`, then `words = row.split()` and the three conversions, each
      index and each conversion able to raise. It is `RowOf` written as the
      source's sequence of statements, one early exit per raise; what an
      outcome means is stated about `RowOf`. */
  method ReadRow(row: string, i: nat, parse: string -> Option<real>) returns (res: Row)
    ensures res == RowOf(row, i, parse)
  {
    if |row| == 0 {
      return Failure(EmptyLine(i));
    }
    if row[0] == '#' {
      return Comment;
    }
    var words := Split(row);
    if |words| <= TimeColumn {
      return Failure(MissingToken(i, TimeColumn));
    }
    var t := parse(words[TimeColumn]);
    if t.None? {
      return Failure(NotANumber(i, words[TimeColumn]));
    }
    if |words| <= EnstrophyColumn {
      return Failure(MissingToken(i, EnstrophyColumn));
    }
    var enst := parse(words[EnstrophyColumn]);
    if enst.None? {
      return Failure(NotANumber(i, words[EnstrophyColumn]));
    }
    if |words| <= EnergyColumn {
      return Failure(MissingToken(i, EnergyColumn));
    }
    var ke := parse(words[EnergyColumn]);
    if ke.None? {
      return Failure(NotANumber(i, words[EnergyColumn]));
    }
    res := Record(t.value, enst.value, ke.value);
  }

  /** `read_stats`: three empty lists, then one pass over the lines that
      appends to all three for every data line and stops at the first line
      that raises. */
  method ReadStats(lines: seq<string>, parse: string -> Option<real>) returns (r: Result<Columns, Error>)
    ensures r == ReadStatsSpec(lines, parse)
    ensures r.Ok? ==> |r.value.t| == |r.value.enst| == |r.value.ke| == |DataLines(lines)|
  {
    ghost var rows := Outcomes(lines, parse);
    var t: seq<real> := [];
    var enst: seq<real> := [];
    var ke: seq<real> := [];
    var i := 0;
    while i < |lines|
      invariant 0 <= i <= |lines|
      invariant Collect(rows[..i]) == Ok(Columns(t, enst, ke))
    {
      var row := lines[i];
      var outcome := ReadRow(row, i, parse);
      match outcome {
        case Failure(e) =>
          CollectStops(rows, i);
          return Err(e);
        case Comment =>
          CollectStep(rows, i);
        case Record(x, y, z) =>
          CollectStep(rows, i);
          t := t + [x];
          enst := enst + [y];
          ke := ke + [z];
      }
      i := i + 1;
    }
    assert rows[..i] == rows;
    r := Ok(Columns(t, enst, ke));
    ReadStatsLength(lines, parse);
  }

  // ---------------------------------------------------------------------
  // The loop over outcomes

  /** Once an outcome is a failure, the outcomes after it do not matter. */
  lemma {:induction false} CollectErrorPersists(rows: seq<Row>, i: nat)
    requires i <= |rows|
    requires Collect(rows[..i]).Err?
    ensures Collect(rows) == Collect(rows[..i])
    decreases |rows| - i
  {
    if i < |rows| {
      assert rows[..|rows| - 1][..i] == rows[..i];
      CollectErrorPersists(rows[..|rows| - 1], i);
    } else {
      assert rows[..i] == rows;
    }
  }

  /** One more outcome that is not a failure: a comment leaves the lists
      as they were, a record appends to each of them. */
  lemma CollectStep(rows: seq<Row>, i: nat)
    requires i < |rows|
    requires Collect(rows[..i]).Ok? && !rows[i].Failure?
    ensures var c := Collect(rows[..i]).value;
            Collect(rows[..i + 1]) ==
              if rows[i].Record? then Ok(Columns(c.t + [rows[i].t], c.enst + [rows[i].enst], c.ke + [rows[i].ke]))
              else Ok(c)
  {
    assert rows[..i + 1][..i] == rows[..i];
  }

  /** A failing outcome after a clean prefix is the result of the whole loop. */
  lemma CollectStops(rows: seq<Row>, i: nat)
    requires i < |rows|
    requires Collect(rows[..i]).Ok? && rows[i].Failure?
    ensures Collect(rows) == Err(rows[i].error)
  {
    assert rows[..i + 1][..i] == rows[..i];
    CollectErrorPersists(rows, i + 1);
    assert rows[..|rows|] == rows;
  }

  /** The loop finishes exactly when no outcome is a failure. */
  lemma {:induction false} CollectOkIff(rows: seq<Row>)
    ensures Collect(rows).Ok? <==> forall j :: 0 <= j < |rows| ==> !rows[j].Failure?
    decreases |rows|
  {
    if rows != [] {
      var init := rows[..|rows| - 1];
      CollectOkIff(init);
      assert forall j :: 0 <= j < |init| ==> init[j] == rows[j];
    }
  }

  /** A failed loop reports the first failing outcome. */
  lemma {:induction false} CollectFirstFailure(rows: seq<Row>)
    requires Collect(rows).Err?
    ensures exists k :: 0 <= k < |rows| && rows[k] == Failure(Collect(rows).error) &&
                        forall j :: 0 <= j < k ==> !rows[j].Failure?
    decreases |rows|
  {
    var n := |rows| - 1;
    var init := rows[..n];
    assert forall j :: 0 <= j < |init| ==> init[j] == rows[j];
    if Collect(init).Err? {
      CollectFirstFailure(init);
      var k :| 0 <= k < |init| && init[k] == Failure(Collect(init).error) &&
               forall j :: 0 <= j < k ==> !init[j].Failure?;
      assert rows[k] == init[k];
    } else {
      CollectOkIff(init);
      assert rows[n] == Failure(Collect(rows).error);
    }
  }

  /** One entry per record. */
  lemma {:induction false} CollectLength(rows: seq<Row>)
    ensures Collect(rows).Ok? ==> |Collect(rows).value.t| == |Records(rows)|
    decreases |rows|
  {
    if rows != [] {
      CollectLength(rows[..|rows| - 1]);
    }
  }

  /** Entry `i` of the three lists is the `i`-th record. */
  lemma {:induction false} CollectRecords(rows: seq<Row>, i: nat)
    requires Collect(rows).Ok?
    requires i < |Records(rows)|
    ensures var c := Collect(rows).value;
            i < |c.t| && Records(rows)[i] == Record(c.t[i], c.enst[i], c.ke[i])
    decreases |rows|
  {
    var init := rows[..|rows| - 1];
    CollectLength(rows);
    CollectLength(init);
    if i < |Records(init)| {
      CollectRecords(init, i);
    }
  }

  // ---------------------------------------------------------------------
  // One line

  /** The loop body raises on a line exactly when the line is not readable,
      reports that line's index, and skips the line exactly when it is a
      comment. */
  lemma RowOfReadable(line: string, row: nat, parse: string -> Option<real>)
    ensures RowOf(line, row, parse).Failure? <==> !RowReadable(line, parse)
    ensures RowOf(line, row, parse).Failure? ==> RowOf(line, row, parse).error.row == row
    ensures RowOf(line, row, parse).Comment? <==> IsComment(line)
  {
  }

  /** A record is tokens 0, 1 and 3 of a data line, whatever its index. */
  lemma RowOfRecord(line: string, row: nat, other: nat, parse: string -> Option<real>)
    requires RowOf(line, row, parse).Record?
    ensures RowOf(line, other, parse) == RowOf(line, row, parse)
    ensures var words, rec := Split(line), RowOf(line, row, parse);
            && !IsComment(line)
            && |words| > EnergyColumn
            && parse(words[TimeColumn]) == Some(rec.t)
            && parse(words[EnstrophyColumn]) == Some(rec.enst)
            && parse(words[EnergyColumn]) == Some(rec.ke)
  {
  }

  // ---------------------------------------------------------------------
  // The whole file

  /** The outcomes of a prefix of the file are a prefix of its outcomes. */
  lemma OutcomesPrefix(lines: seq<string>, i: nat, parse: string -> Option<real>)
    requires i <= |lines|
    ensures Outcomes(lines, parse)[..i] == Outcomes(lines[..i], parse)
  {
  }

  /** Once a line has raised, the lines after it are never looked at. */
  lemma ErrorPersists(lines: seq<string>, i: nat, parse: string -> Option<real>)
    requires i <= |lines|
    requires ReadStatsSpec(lines[..i], parse).Err?
    ensures ReadStatsSpec(lines, parse) == ReadStatsSpec(lines[..i], parse)
  {
    OutcomesPrefix(lines, i, parse);
    CollectErrorPersists(Outcomes(lines, parse), i);
  }

  /** The read succeeds exactly when every line gets through the loop body:
      it is non-empty and, unless it is a comment, has at least four tokens
      of which tokens 0, 1 and 3 parse as numbers. */
  lemma ReadStatsSucceedsIff(lines: seq<string>, parse: string -> Option<real>)
    ensures ReadStatsSpec(lines, parse).Ok? <==>
              forall j :: 0 <= j < |lines| ==> RowReadable(lines[j], parse)
  {
    var rows := Outcomes(lines, parse);
    CollectOkIff(rows);
    forall j | 0 <= j < |lines|
      ensures rows[j].Failure? <==> !RowReadable(lines[j], parse)
    {
      RowOfReadable(lines[j], j, parse);
    }
  }

  /** When every line is readable, the records are the data lines' records,
      in file order. */
  lemma {:induction false} RecordsAreDataLines(lines: seq<string>, parse: string -> Option<real>)
    requires forall j :: 0 <= j < |lines| ==> RowReadable(lines[j], parse)
    ensures |Records(Outcomes(lines, parse))| == |DataLines(lines)|
    ensures forall i :: 0 <= i < |DataLines(lines)| ==>
              Records(Outcomes(lines, parse))[i] == RowOf(DataLines(lines)[i], 0, parse)
    decreases |lines|
  {
    if lines != [] {
      var n := |lines| - 1;
      var init := lines[..n];
      assert forall j :: 0 <= j < |init| ==> init[j] == lines[j];
      RecordsAreDataLines(init, parse);
      var rows := Outcomes(lines, parse);
      OutcomesPrefix(lines, n, parse);
      assert rows[..|rows| - 1] == Outcomes(init, parse);
      RowOfReadable(lines[n], n, parse);
      if !IsComment(lines[n]) {
        RowOfRecord(lines[n], n, 0, parse);
      }
    }
  }

  /** One entry per data line: the output length is the number of lines
      whose first character is not `#`. */
  lemma ReadStatsLength(lines: seq<string>, parse: string -> Option<real>)
    ensures ReadStatsSpec(lines, parse).Ok? ==>
              |ReadStatsSpec(lines, parse).value.t| == |DataLines(lines)|
  {
    if ReadStatsSpec(lines, parse).Ok? {
      ReadStatsSucceedsIff(lines, parse);
      RecordsAreDataLines(lines, parse);
      CollectLength(Outcomes(lines, parse));
    }
  }

  /** Order and projection: entry `i` of `t`, `enst` and `ke` is the number
      in token 0, 1 and 3 of the `i`-th data line. */
  lemma ReadStatsRow(lines: seq<string>, parse: string -> Option<real>, i: nat)
    requires ReadStatsSpec(lines, parse).Ok?
    requires i < |DataLines(lines)|
    ensures var c := ReadStatsSpec(lines, parse).value;
            var words := Split(DataLines(lines)[i]);
            && i < |c.t|
            && |words| > EnergyColumn
            && parse(words[TimeColumn]) == Some(c.t[i])
            && parse(words[EnstrophyColumn]) == Some(c.enst[i])
            && parse(words[EnergyColumn]) == Some(c.ke[i])
  {
    var rows := Outcomes(lines, parse);
    ReadStatsSucceedsIff(lines, parse);
    RecordsAreDataLines(lines, parse);
    CollectRecords(rows, i);
    RowOfRecord(DataLines(lines)[i], 0, 0, parse);
  }

  /** A failed read reports the first line that cannot be read. */
  lemma ReadStatsFirstFailure(lines: seq<string>, parse: string -> Option<real>)
    requires ReadStatsSpec(lines, parse).Err?
    ensures var row := ReadStatsSpec(lines, parse).error.row;
            && row < |lines|
            && !RowReadable(lines[row], parse)
            && RowOf(lines[row], row, parse) == Failure(ReadStatsSpec(lines, parse).error)
            && forall j :: 0 <= j < row ==> RowReadable(lines[j], parse)
  {
    var rows := Outcomes(lines, parse);
    var e := Collect(rows).error;
    CollectFirstFailure(rows);
    var k :| 0 <= k < |rows| && rows[k] == Failure(e) && forall j :: 0 <= j < k ==> !rows[j].Failure?;
    RowOfReadable(lines[k], k, parse);
    assert e.row == k;
    forall j | 0 <= j < k ensures RowReadable(lines[j], parse) {
      assert !rows[j].Failure? && rows[j] == RowOf(lines[j], j, parse);
      RowOfReadable(lines[j], j, parse);
    }
  }

  /** A data line with fewer than four tokens makes the read fail; this
      covers a blank line, which passes the comment test and splits to no
      tokens at all. */
  lemma ShortDataLineFails(lines: seq<string>, j: nat, parse: string -> Option<real>)
    requires j < |lines|
    requires !IsComment(lines[j])
    requires |Split(lines[j])| <= EnergyColumn
    ensures ReadStatsSpec(lines, parse).Err?
  {
    ReadStatsSucceedsIff(lines, parse);
    assert !RowReadable(lines[j], parse);
  }

  /** A blank line ("\n", or any line of whitespace only) after readable
      lines is reported as a missing token 0 on that line. */
  lemma BlankLineFails(lines: seq<string>, j: nat, parse: string -> Option<real>)
    requires j < |lines|
    requires |lines[j]| > 0 && AllSpace(lines[j])
    requires forall k :: 0 <= k < j ==> RowReadable(lines[k], parse)
    ensures ReadStatsSpec(lines, parse) == Err(MissingToken(j, TimeColumn))
  {
    SplitEmptyIff(lines[j]);
    assert !IsComment(lines[j]) by { assert IsSpace(lines[j][0]); }
    ShortDataLineFails(lines, j, parse);
    ReadStatsFirstFailure(lines, parse);
    var row := ReadStatsSpec(lines, parse).error.row;
    assert !RowReadable(lines[j], parse);
    assert row <= j;
    assert row == j;
  }

  /** Two successful reads with the same data lines give the same columns. */
  lemma SameDataSameColumns(x: seq<string>, y: seq<string>, parse: string -> Option<real>)
    requires ReadStatsSpec(x, parse).Ok? && ReadStatsSpec(y, parse).Ok?
    requires DataLines(x) == DataLines(y)
    ensures ReadStatsSpec(x, parse) == ReadStatsSpec(y, parse)
  {
    var cx, cy := ReadStatsSpec(x, parse).value, ReadStatsSpec(y, parse).value;
    ReadStatsLength(x, parse);
    ReadStatsLength(y, parse);
    forall i | 0 <= i < |DataLines(x)|
      ensures cx.t[i] == cy.t[i] && cx.enst[i] == cy.enst[i] && cx.ke[i] == cy.ke[i]
    {
      ReadStatsRow(x, parse, i);
      ReadStatsRow(y, parse, i);
    }
    assert cx.t == cy.t && cx.enst == cy.enst && cx.ke == cy.ke;
  }

  /** The data lines of two files read one after the other. */
  lemma {:induction false} DataLinesAppend(x: seq<string>, y: seq<string>)
    ensures DataLines(x + y) == DataLines(x) + DataLines(y)
    decreases |y|
  {
    if y == [] {
      assert x + y == x;
    } else {
      var y0 := y[..|y| - 1];
      assert (x + y)[..|x + y| - 1] == x + y0;
      DataLinesAppend(x, y0);
    }
  }

  /** Comment lines contribute nothing: inserting one anywhere changes
      neither whether the read succeeds nor a successful result. */
  lemma CommentIgnored(a: seq<string>, c: string, b: seq<string>, parse: string -> Option<real>)
    requires IsComment(c)
    ensures ReadStatsSpec(a + [c] + b, parse).Ok? <==> ReadStatsSpec(a + b, parse).Ok?
    ensures ReadStatsSpec(a + b, parse).Ok? ==>
              ReadStatsSpec(a + [c] + b, parse) == ReadStatsSpec(a + b, parse)
  {
    ReadStatsSucceedsIff(a + [c] + b, parse);
    ReadStatsSucceedsIff(a + b, parse);
    ReadableWithComment(a, c, b, parse);
    if ReadStatsSpec(a + b, parse).Ok? {
      DataLinesWithComment(a, c, b);
      SameDataSameColumns(a + [c] + b, a + b, parse);
    }
  }

  /** A comment line is always readable, so inserting one keeps every
      line readable exactly when every line was. */
  lemma ReadableWithComment(a: seq<string>, c: string, b: seq<string>, parse: string -> Option<real>)
    requires IsComment(c)
    ensures (forall j :: 0 <= j < |a + [c] + b| ==> RowReadable((a + [c] + b)[j], parse)) <==>
            (forall j :: 0 <= j < |a + b| ==> RowReadable((a + b)[j], parse))
  {
    var with, without := a + [c] + b, a + b;
    assert RowReadable(c, parse);
    if forall j :: 0 <= j < |without| ==> RowReadable(without[j], parse) {
      forall j | 0 <= j < |with| ensures RowReadable(with[j], parse) {
        if j < |a| { assert with[j] == without[j]; }
        else if j > |a| { assert with[j] == without[j - 1]; }
      }
    }
    if forall j :: 0 <= j < |with| ==> RowReadable(with[j], parse) {
      forall j | 0 <= j < |without| ensures RowReadable(without[j], parse) {
        if j < |a| { assert without[j] == with[j]; }
        else { assert without[j] == with[j + 1]; }
      }
    }
  }

  /** Inserting a comment line leaves the data lines as they were. */
  lemma DataLinesWithComment(a: seq<string>, c: string, b: seq<string>)
    requires IsComment(c)
    ensures DataLines(a + [c] + b) == DataLines(a + b)
  {
    DataLinesAppend(a + [c], b);
    DataLinesAppend(a, b);
    assert DataLines(a + [c]) == DataLines(a) by {
      assert (a + [c])[..|a + [c]| - 1] == a;
    }
  }

  /** Two lines the reader cannot tell apart: equal, both comments, or both
      data lines with at least four tokens that agree on tokens 0, 1 and 3. */
  predicate SameUsedColumns(x: string, y: string)
  {
    || x == y
    || (IsComment(x) && IsComment(y))
    || (&& |x| > 0 && !IsComment(x) && |y| > 0 && !IsComment(y)
        && |Split(x)| > EnergyColumn && |Split(y)| > EnergyColumn
        && Split(x)[TimeColumn] == Split(y)[TimeColumn]
        && Split(x)[EnstrophyColumn] == Split(y)[EnstrophyColumn]
        && Split(x)[EnergyColumn] == Split(y)[EnergyColumn])
  }

  /** Token 2, tokens past 3, the text after `#` on a comment line and the
      amount of whitespace never affect the result. */
  lemma UnusedColumnsIgnored(x: seq<string>, y: seq<string>, parse: string -> Option<real>)
    requires |x| == |y|
    requires forall j :: 0 <= j < |x| ==> SameUsedColumns(x[j], y[j])
    ensures ReadStatsSpec(x, parse) == ReadStatsSpec(y, parse)
  {
    forall j | 0 <= j < |x|
      ensures Outcomes(x, parse)[j] == Outcomes(y, parse)[j]
    {
      assert SameUsedColumns(x[j], y[j]);
    }
    assert Outcomes(x, parse) == Outcomes(y, parse);
  }

  // ---------------------------------------------------------------------
  // Examples

  /** A line of four tokens separated by single blanks, read with its
      newline, splits back into the four tokens. */
  lemma SplitFourTokens(a: string, b: string, c: string, d: string)
    requires IsToken(a) && IsToken(b) && IsToken(c) && IsToken(d)
    ensures Split(Join([a, b, c, d]) + "\n") == [a, b, c, d]
  {
    SplitJoin([a, b, c, d]);
    SplitTrailingSpace(Join([a, b, c, d]), '\n');
  }

  /** A data line of four blank-separated tokens yields tokens 0, 1 and 3
      and nothing of token 2. */
  lemma RowOfFourTokens(a: string, b: string, c: string, d: string, row: nat, parse: string -> Option<real>)
    requires IsToken(a) && IsToken(b) && IsToken(c) && IsToken(d) && a[0] != '#'
    requires parse(a).Some? && parse(b).Some? && parse(d).Some?
    ensures RowOf(Join([a, b, c, d]) + "\n", row, parse)
            == Record(parse(a).value, parse(b).value, parse(d).value)
  {
    SplitFourTokens(a, b, c, d);
    JoinHead([a, b, c, d]);
  }

  lemma JoinHead(ws: seq<string>)
    requires |ws| > 0 && |ws[0]| > 0
    ensures |Join(ws)| > 0 && Join(ws)[0] == ws[0][0]
  {
  }

  /** A comment line followed by two four-token rows, such as
      "0.0 1.0 9.0 2.0" and "1.0 1.5 9.0 2.5", gives `t`, `enst` and `ke`
      holding `parse` of tokens 0, 1 and 3 of each row, in row order,
      whatever stands in token 2 (with `float` as the parser:
      t = [0.0, 1.0], enst = [1.0, 1.5], ke = [2.0, 2.5]). */
  lemma TwoRowExample(comment: string, r1: seq<string>, r2: seq<string>, parse: string -> Option<real>)
    requires IsComment(comment)
    requires |r1| == 4 && IsToken(r1[0]) && IsToken(r1[1]) && IsToken(r1[2]) && IsToken(r1[3])
    requires |r2| == 4 && IsToken(r2[0]) && IsToken(r2[1]) && IsToken(r2[2]) && IsToken(r2[3])
    requires r1[0][0] != '#' && r2[0][0] != '#'
    requires parse(r1[0]).Some? && parse(r1[1]).Some? && parse(r1[3]).Some?
    requires parse(r2[0]).Some? && parse(r2[1]).Some? && parse(r2[3]).Some?
    ensures ReadStatsSpec([comment, Join(r1) + "\n", Join(r2) + "\n"], parse)
            == Ok(Columns([parse(r1[0]).value, parse(r2[0]).value],
                          [parse(r1[1]).value, parse(r2[1]).value],
                          [parse(r1[3]).value, parse(r2[3]).value]))
  {
    var t1, e1, k1 := parse(r1[0]).value, parse(r1[1]).value, parse(r1[3]).value;
    var t2, e2, k2 := parse(r2[0]).value, parse(r2[1]).value, parse(r2[3]).value;
    ExampleOutcomes(comment, r1, r2, parse);
    CollectCommentAndTwoRecords(t1, e1, k1, t2, e2, k2);
  }

  /** The per-line outcomes of the example file. */
  lemma ExampleOutcomes(comment: string, r1: seq<string>, r2: seq<string>, parse: string -> Option<real>)
    requires IsComment(comment)
    requires |r1| == 4 && IsToken(r1[0]) && IsToken(r1[1]) && IsToken(r1[2]) && IsToken(r1[3])
    requires |r2| == 4 && IsToken(r2[0]) && IsToken(r2[1]) && IsToken(r2[2]) && IsToken(r2[3])
    requires r1[0][0] != '#' && r2[0][0] != '#'
    requires parse(r1[0]).Some? && parse(r1[1]).Some? && parse(r1[3]).Some?
    requires parse(r2[0]).Some? && parse(r2[1]).Some? && parse(r2[3]).Some?
    ensures Outcomes([comment, Join(r1) + "\n", Join(r2) + "\n"], parse)
            == [Comment,
                Record(parse(r1[0]).value, parse(r1[1]).value, parse(r1[3]).value),
                Record(parse(r2[0]).value, parse(r2[1]).value, parse(r2[3]).value)]
  {
    assert r1 == [r1[0], r1[1], r1[2], r1[3]] && r2 == [r2[0], r2[1], r2[2], r2[3]];
    RowOfFourTokens(r1[0], r1[1], r1[2], r1[3], 1, parse);
    RowOfFourTokens(r2[0], r2[1], r2[2], r2[3], 2, parse);
  }

  /** The loop over a comment and two records. */
  lemma CollectCommentAndTwoRecords(t1: real, e1: real, k1: real, t2: real, e2: real, k2: real)
    ensures Collect([Comment, Record(t1, e1, k1), Record(t2, e2, k2)])
            == Ok(Columns([t1, t2], [e1, e2], [k1, k2]))
  {
    var rows := [Comment, Record(t1, e1, k1), Record(t2, e2, k2)];
    assert rows[..1][..0] == [] && rows[..1][0] == Comment;
    assert rows[..2][..1] == rows[..1] && rows[..2][1] == Record(t1, e1, k1);
    assert rows[..3][..2] == rows[..2] && rows[..3] == rows;
    var none: seq<real> := [];
    assert Collect(rows[..1]) == Ok(Columns(none, none, none));
    assert Collect(rows[..2]) == Ok(Columns(none + [t1], none + [e1], none + [k1]));
    assert none + [t1] == [t1] && none + [e1] == [e1] && none + [k1] == [k1];
    assert [t1] + [t2] == [t1, t2] && [e1] + [e2] == [e1, e2] && [k1] + [k2] == [k1, k2];
  }

  /** Only the first character decides: a `#` after leading whitespace is a
      data token, so a number parser that rejects "#" makes the read fail. */
  lemma IndentedHashIsData(a: string, b: string, c: string, d: string, parse: string -> Option<real>)
    requires IsToken(a) && IsToken(b) && IsToken(c) && IsToken(d)
    requires a[0] == '#' && parse(a) == None
    ensures ReadStatsSpec([" " + Join([a, b, c, d]) + "\n"], parse) == Err(NotANumber(0, a))
  {
    var line := " " + Join([a, b, c, d]) + "\n";
    assert RowOf(line, 0, parse) == Failure(NotANumber(0, a)) by {
      SplitFourTokens(a, b, c, d);
      assert line[0] == ' ' && line[1..] == Join([a, b, c, d]) + "\n";
    }
    var rows := Outcomes([line], parse);
    assert rows == [Failure(NotANumber(0, a))];
    assert rows[..0] == [];
    assert Collect(rows) == Err(NotANumber(0, a));
  }
}
