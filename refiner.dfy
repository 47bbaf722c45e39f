/** The row refiner (refined_data/csv_refiner.py): streams the raw survey
    records, drops those from 1999 or earlier and those with a blank field,
    and writes the rest projected onto the nine output fields. */
module Refiner {
  import opened Common
  import opened Decimal

  /** The output columns, in the order they are written. */
  const Fields: seq<string> :=
    ["year", "vote_intention", "region", "province", "gender", "age", "age_cats", "degree", "language"]

  /** One record as `csv.DictReader` yields it: header name to cell. A name
      missing from the header is absent from the map; a cell missing from a
      short line is `None`. */
  type Record = map<string, Option<string>>

  /** Why a run stops: `row[f]` raised `KeyError` (no such column),
      `int(None)` or `None.strip()` raised (short line), or `int(year)`
      raised `ValueError`. */
  datatype RefineError = MissingColumn(field: string) | MissingCell(field: string) | BadYear(text: string)

  /** The outcome of a run: the data lines written (the header aside), and
      the error that stopped it, if any. */
  datatype Run = Run(written: seq<seq<string>>, failure: Option<RefineError>)

  /** `row[field]`, raising as Python does. */
  function Cell(row: Record, field: string): (r: Result<string, RefineError>)
    ensures r.Ok? <==> field in row && row[field].Some?
    ensures r.Ok? ==> r.value == row[field].value
    ensures r.Err? && field !in row ==> r.error == MissingColumn(field)
    ensures r.Err? && field in row ==> r.error == MissingCell(field)
  {
    if field !in row then Err(MissingColumn(field))
    else if row[field].None? then Err(MissingCell(field))
    else Ok(row[field].value)
  }

  predicate IsBlank(text: string)
  {
    Strip(text) == []
  }

  /** Every output field is present in `row` with a non-blank cell. */
  ghost predicate FullRow(row: Record)
  {
    forall f :: f in Fields ==> f in row && row[f].Some? && !IsBlank(row[f].value)
  }

  /** `any(row[f].strip() == "" for f in fields)`, evaluated left to right:
      it stops at the first blank cell, and raises at the first missing cell
      met before any blank one. */
  function AnyBlank(row: Record, fields: seq<string>): Result<bool, RefineError>
  {
    if fields == [] then Ok(false)
    else match Cell(row, fields[0])
      case Err(e) => Err(e)
      case Ok(text) => if IsBlank(text) then Ok(true) else AnyBlank(row, fields[1..])
  }

  /** Field `k` is the first, in `fields` order, whose cell is missing or
      blank: the one at which `any(...)` stops. */
  ghost predicate StopsAt(row: Record, fields: seq<string>, k: int)
  {
    && 0 <= k < |fields|
    && (Cell(row, fields[k]).Err? || IsBlank(Cell(row, fields[k]).value))
    && forall i :: 0 <= i < k ==> Cell(row, fields[i]).Ok? && !IsBlank(Cell(row, fields[i]).value)
  }

  /** `any` is false exactly when every field is present and non-blank; it
      is true only when some present field is blank, and it raises only on
      a missing field. */
  lemma {:induction false} AnyBlankSpec(row: Record, fields: seq<string>)
    ensures AnyBlank(row, fields) == Ok(false) <==>
      forall f :: f in fields ==> f in row && row[f].Some? && !IsBlank(row[f].value)
    ensures AnyBlank(row, fields) == Ok(true) ==>
      exists f :: f in fields && f in row && row[f].Some? && IsBlank(row[f].value)
    ensures AnyBlank(row, fields).Err? ==>
      exists f :: f in fields && Cell(row, f) == Err(AnyBlank(row, fields).error)
  {
    if fields != [] {
      var f0 := fields[0];
      var r := AnyBlank(row, fields);
      AnyBlankSpec(row, fields[1..]);
      assert forall f :: f in fields <==> f == f0 || f in fields[1..];
      if Cell(row, f0).Err? {
        assert r == Err(Cell(row, f0).error);
      } else if IsBlank(row[f0].value) {
        assert r == Ok(true);
      } else {
        assert r == AnyBlank(row, fields[1..]);
      }
    }
  }

  /** Which of true and raising `any` does is decided by the first field
      that is missing or blank: true if that one is blank, its error if it
      is missing; and unless `any` is false, there is such a field. */
  lemma {:induction false} AnyBlankStops(row: Record, fields: seq<string>)
    ensures forall k :: StopsAt(row, fields, k) ==>
      AnyBlank(row, fields) == if Cell(row, fields[k]).Err? then Err(Cell(row, fields[k]).error) else Ok(true)
    ensures AnyBlank(row, fields) != Ok(false) ==> exists k :: StopsAt(row, fields, k)
  {
    if fields != [] {
      forall k | StopsAt(row, fields, k)
        ensures AnyBlank(row, fields) == if Cell(row, fields[k]).Err? then Err(Cell(row, fields[k]).error) else Ok(true)
      {
        if k > 0 {
          assert StopsAt(row, fields[1..], k - 1) by {
            forall i | 0 <= i < k - 1
              ensures Cell(row, fields[1..][i]).Ok? && !IsBlank(Cell(row, fields[1..][i]).value)
            {
              assert fields[1..][i] == fields[i + 1];
            }
          }
          assert Cell(row, fields[0]).Ok? && !IsBlank(Cell(row, fields[0]).value);
          AnyBlankStops(row, fields[1..]);
        }
      }
      if Cell(row, fields[0]).Err? || IsBlank(Cell(row, fields[0]).value) {
        assert StopsAt(row, fields, 0);
      } else if AnyBlank(row, fields[1..]) != Ok(false) {
        AnyBlankStops(row, fields[1..]);
        var k :| StopsAt(row, fields[1..], k);
        assert StopsAt(row, fields, k + 1) by {
          forall i | 0 <= i < k + 1
            ensures Cell(row, fields[i]).Ok? && !IsBlank(Cell(row, fields[i]).value)
          {
            if i > 0 {
              assert fields[i] == fields[1..][i - 1];
            }
          }
        }
      }
    }
  }

  /** The per-record decision of the loop: `Ok(true)` writes the record,
      `Ok(false)` skips it (`continue`), `Err` ends the run. */
  function Decide(row: Record): Result<bool, RefineError>
  {
    match Cell(row, "year")
    case Err(e) => Err(e)
    case Ok(text) =>
      match ParseInt(text)
      case None => Err(BadYear(text))
      case Some(year) =>
        if year <= 1999 then Ok(false)
        else match AnyBlank(row, Fields)
          case Err(e) => Err(e)
          case Ok(blank) => Ok(!blank)
  }

  /** The year of a record, when its cell is present and `int()` reads it. */
  ghost predicate YearParses(row: Record)
  {
    "year" in row && row["year"].Some? && ParseInt(row["year"].value).Some?
  }

  ghost function ParsedYear(row: Record): int
    requires YearParses(row)
  {
    ParseInt(row["year"].value).value
  }

  /** A record is written exactly when its year parses to more than 1999
      and all nine fields are present and non-blank; a year of 1999 or
      earlier skips it whatever its other cells hold; a missing, blank or
      non-integer year ends the run instead of skipping. */
  lemma DecideSpec(row: Record)
    ensures Decide(row) == Ok(true) <==> YearParses(row) && ParsedYear(row) > 1999 && FullRow(row)
    ensures YearParses(row) && ParsedYear(row) <= 1999 ==> Decide(row) == Ok(false)
    ensures !YearParses(row) ==> Decide(row).Err?
    ensures "year" in row && row["year"].Some? && IsBlank(row["year"].value) ==>
      Decide(row) == Err(BadYear(row["year"].value))
  {
    if "year" in row && row["year"].Some? {
      var text := row["year"].value;
      if IsBlank(text) {
        assert ParseInt(text) == None;
      } else if ParseInt(text).Some? && ParseInt(text).value > 1999 {
        DecideLate(row);
      }
    }
  }

  /** After 1999, the blank test alone decides. */
  lemma {:induction false} DecideLate(row: Record)
    requires YearParses(row) && ParsedYear(row) > 1999
    ensures Decide(row) == match AnyBlank(row, Fields)
      case Err(e) => Err(e)
      case Ok(blank) => Ok(!blank)
    ensures Decide(row) == Ok(true) <==> FullRow(row)
  {
    AnyBlankSpec(row, Fields);
  }

  /** For a year after 1999, the first missing or blank field decides: a
      blank one skips the record, a missing one ends the run with that
      field's error; a record not written has such a field. */
  lemma DecideStops(row: Record)
    requires YearParses(row) && ParsedYear(row) > 1999
    ensures forall k :: StopsAt(row, Fields, k) ==>
      Decide(row) == if Cell(row, Fields[k]).Err? then Err(Cell(row, Fields[k]).error) else Ok(false)
    ensures Decide(row) != Ok(true) ==> exists k :: StopsAt(row, Fields, k)
  {
    AnyBlankStops(row, Fields);
    DecideLate(row);
  }

  /** Every output field is present in `row` with a cell. */
  ghost predicate HasCells(row: Record)
  {
    forall f :: f in Fields ==> f in row && row[f].Some?
  }

  lemma KeptHasCells(row: Record)
    requires Decide(row) == Ok(true)
    ensures HasCells(row)
  {
    DecideSpec(row);
  }

  /** `{field: row[field] for field in Fields}` as `DictWriter` lays it out:
      the cells of the output fields, in order, unchanged. */
  function Project(row: Record): (line: seq<string>)
    ensures |line| == |Fields|
    ensures HasCells(row) ==> forall j :: 0 <= j < |Fields| ==> line[j] == row[Fields[j]].value
  {
    seq(|Fields|, j requires 0 <= j < |Fields| =>
      if Fields[j] in row && row[Fields[j]].Some? then row[Fields[j]].value else "")
  }

  /** What the loop body does with one record: write its projection,
      skip it (`continue`), or raise. */
  datatype Verdict = Write(line: seq<string>) | Skip | Raise(error: RefineError)

  function Judge(row: Record): Verdict
  {
    match Decide(row)
    case Err(e) => Raise(e)
    case Ok(keep) => if keep then Write(Project(row)) else Skip
  }

  /** The verdicts on the records, one per record, each from that record alone. */
  function Verdicts(rows: seq<Record>): (vs: seq<Verdict>)
    ensures |vs| == |rows|
  {
    if rows == [] then [] else [Judge(rows[0])] + Verdicts(rows[1..])
  }

  /** The streaming writer: the lines written for a run of verdicts, up to
      the first one that raises. */
  function Written(vs: seq<Verdict>): Run
  {
    if vs == [] then Run([], None)
    else match vs[0]
      case Raise(e) => Run([], Some(e))
      case Skip => Written(vs[1..])
      case Write(line) => var rest := Written(vs[1..]); Run([line] + rest.written, rest.failure)
  }

  /** What the script writes after its header for `rows`: the kept records
      projected, in input order, up to the first record that raises. */
  function Refined(rows: seq<Record>): Run
  {
    Written(Verdicts(rows))
  }

  /** The script: write the header, then stream every record through the
      two tests, writing the survivors; an exception ends the run with the
      lines already written left in the file. */
  method RefineFile(reader: seq<Record>) returns (lines: seq<seq<string>>, failure: Option<RefineError>)
    ensures lines == [Fields] + Refined(reader).written
    ensures failure == Refined(reader).failure
  {
    lines := [Fields];
    failure := None;
    var i := 0;
    while i < |reader|
      invariant 0 <= i <= |reader|
      invariant Refined(reader[..i]).failure == None
      invariant lines == [Fields] + Refined(reader[..i]).written
    {
      var verdict := Judge(reader[i]);
      RefinedStep(reader, i);
      if verdict.Raise? {
        failure := Some(verdict.error);
        return;
      }
      if verdict.Write? {
        lines := lines + [verdict.line];
      }
      i := i + 1;
    }
    assert reader[..i] == reader;
  }

  /** One turn of the loop: the verdict on record `i` extends, leaves or
      ends what the records before it wrote. */
  lemma RefinedStep(reader: seq<Record>, i: nat)
    requires i < |reader| && Refined(reader[..i]).failure == None
    ensures Judge(reader[i]).Raise? ==>
      Refined(reader) == Run(Refined(reader[..i]).written, Some(Judge(reader[i]).error))
    ensures Judge(reader[i]).Skip? ==> Refined(reader[..i + 1]) == Refined(reader[..i])
    ensures Judge(reader[i]).Write? ==>
      Refined(reader[..i + 1]) == Run(Refined(reader[..i]).written + [Judge(reader[i]).line], None)
  {
    var vs := Verdicts(reader);
    VerdictsAt(reader, i);
    VerdictsPrefix(reader, i);
    VerdictsPrefix(reader, i + 1);
    WrittenStep(vs, i);
  }

  /** The verdicts on a prefix of the records are that prefix of the verdicts. */
  lemma {:induction false} VerdictsPrefix(rows: seq<Record>, k: nat)
    requires k <= |rows|
    ensures Verdicts(rows[..k]) == Verdicts(rows)[..k]
  {
    assert rows == rows[..k] + rows[k..];
    VerdictsAppend(rows[..k], rows[k..]);
  }

  /** The writer's step: verdict `i` extends, leaves or ends what the
      verdicts before it wrote. */
  lemma {:induction false} WrittenStep(vs: seq<Verdict>, i: nat)
    requires i < |vs| && Written(vs[..i]).failure == None
    ensures vs[i].Raise? ==> Written(vs) == Run(Written(vs[..i]).written, Some(vs[i].error))
    ensures vs[i].Skip? ==> Written(vs[..i + 1]) == Written(vs[..i])
    ensures vs[i].Write? ==> Written(vs[..i + 1]) == Run(Written(vs[..i]).written + [vs[i].line], None)
  {
    assert vs[..i + 1] == vs[..i] + [vs[i]];
    WrittenAppend(vs[..i], [vs[i]]);
    if vs[i].Raise? {
      assert vs == vs[..i + 1] + vs[i + 1..];
      WrittenAppend(vs[..i + 1], vs[i + 1..]);
    }
  }

  lemma {:induction false} VerdictsAppend(a: seq<Record>, b: seq<Record>)
    ensures Verdicts(a + b) == Verdicts(a) + Verdicts(b)
  {
    if a == [] {
      assert a + b == b;
    } else {
      assert (a + b)[1..] == a[1..] + b;
      VerdictsAppend(a[1..], b);
    }
  }

  lemma {:induction false} WrittenAppend(u: seq<Verdict>, v: seq<Verdict>)
    ensures Written(u + v) ==
      if Written(u).failure.Some? then Written(u)
      else Run(Written(u).written + Written(v).written, Written(v).failure)
  {
    if u == [] {
      assert u + v == v;
    } else {
      assert (u + v)[0] == u[0];
      assert (u + v)[1..] == u[1..] + v;
      WrittenAppend(u[1..], v);
    }
  }

  /** No cross-row state: refining `a + b` is refining `a`, then, unless
      `a` raised, refining `b` and appending. */
  lemma RefinedSplit(a: seq<Record>, b: seq<Record>)
    ensures Refined(a + b) ==
      if Refined(a).failure.Some? then Refined(a)
      else Run(Refined(a).written + Refined(b).written, Refined(b).failure)
  {
    VerdictsAppend(a, b);
    WrittenAppend(Verdicts(a), Verdicts(b));
  }

  /** The verdict on a record: written, as its unchanged projection,
      exactly when its year parses to more than 1999 and all nine fields
      are present and non-blank; skipped when its year is 1999 or earlier,
      whatever its other cells; the run ends when the year is missing,
      blank or not an integer. A later record that is not written is
      skipped when its first missing-or-blank field is blank, and ends the
      run when that field is missing. */
  lemma JudgeSpec(row: Record)
    ensures Judge(row).Write? <==> YearParses(row) && ParsedYear(row) > 1999 && FullRow(row)
    ensures Judge(row).Write? ==> Judge(row).line == Project(row)
    ensures YearParses(row) && ParsedYear(row) <= 1999 ==> Judge(row) == Skip
    ensures !YearParses(row) ==> Judge(row).Raise?
    ensures Judge(row) == Skip <==>
      YearParses(row) && (ParsedYear(row) <= 1999 || exists k :: StopsAt(row, Fields, k) && Cell(row, Fields[k]).Ok?)
  {
    DecideSpec(row);
    if YearParses(row) && ParsedYear(row) > 1999 {
      DecideStops(row);
    }
    if YearParses(row) && ParsedYear(row) > 1999 && Judge(row) != Skip {
      forall k | StopsAt(row, Fields, k) ensures Cell(row, Fields[k]).Err? {
      }
    }
  }

  /** A data line as the refiner leaves it: nine cells, a year `int()`
      reads as later than 1999, no blank cell. */
  predicate CleanLine(line: seq<string>)
  {
    && |line| == |Fields|
    && ParseInt(line[0]).Some? && ParseInt(line[0]).value > 1999
    && forall j :: 0 <= j < |line| ==> !IsBlank(line[j])
  }

  /** What the refiner writes for a record is a clean line. */
  lemma JudgeClean(row: Record)
    ensures Judge(row).Write? ==> CleanLine(Judge(row).line)
  {
    if Judge(row).Write? {
      JudgeSpec(row);
      var line := Project(row);
      assert HasCells(row);
      assert line[0] == row["year"].value;
      forall j | 0 <= j < |line| ensures !IsBlank(line[j]) {
        assert Fields[j] in Fields;
      }
    }
  }

  lemma {:induction false} VerdictsAt(rows: seq<Record>, k: nat)
    requires k < |rows|
    ensures Verdicts(rows)[k] == Judge(rows[k])
  {
    if k > 0 {
      VerdictsAt(rows[1..], k - 1);
    }
  }

  /** Every line a writer emits comes from a `Write` verdict. */
  lemma {:induction false} WrittenFromVerdicts(vs: seq<Verdict>)
    ensures |Written(vs).written| <= |vs|
    ensures forall line :: line in Written(vs).written ==> Write(line) in vs
  {
    if vs != [] {
      WrittenFromVerdicts(vs[1..]);
    }
  }

  /** Every line the refiner writes is clean, and it writes no more lines than it reads. */
  lemma RefinedClean(rows: seq<Record>)
    ensures |Refined(rows).written| <= |rows|
    ensures forall line :: line in Refined(rows).written ==> CleanLine(line)
  {
    var vs := Verdicts(rows);
    WrittenFromVerdicts(vs);
    forall line | line in Refined(rows).written ensures CleanLine(line) {
      var k :| 0 <= k < |vs| && vs[k] == Write(line);
      VerdictsAt(rows, k);
      JudgeClean(rows[k]);
    }
  }

  /** The header is written exactly once: no data line equals it, since a
      data line's year parses and the word "year" does not. */
  lemma HeaderOnce(rows: seq<Record>)
    ensures forall line :: line in Refined(rows).written ==> line != Fields
  {
    RefinedClean(rows);
    YearIsNotAnInteger();
    forall line | line in Refined(rows).written ensures line != Fields {
      assert line[0] != "year";
    }
  }

  lemma YearIsNotAnInteger()
    ensures ParseInt("year") == None
  {
    WordIsNotAnInteger("year");
  }

  /** The record `csv.DictReader` reads back from a written data line
      under the header `Fields`. */
  function Reread(line: seq<string>): (row: Record)
    requires |line| == |Fields|
    ensures forall j :: 0 <= j < |Fields| ==> Fields[j] in row && row[Fields[j]] == Some(line[j])
  {
    map["year" := Some(line[0]), "vote_intention" := Some(line[1]), "region" := Some(line[2]),
        "province" := Some(line[3]), "gender" := Some(line[4]), "age" := Some(line[5]),
        "age_cats" := Some(line[6]), "degree" := Some(line[7]), "language" := Some(line[8])]
  }

  function RereadAll(lines: seq<seq<string>>): (rows: seq<Record>)
    requires forall line :: line in lines ==> |line| == |Fields|
    ensures |rows| == |lines|
  {
    seq(|lines|, k requires 0 <= k < |lines| => Reread(lines[k]))
  }

  /** Reading back a clean line yields a record the refiner writes unchanged. */
  lemma RereadKept(line: seq<string>)
    requires CleanLine(line)
    ensures Judge(Reread(line)) == Write(line)
  {
    var row := Reread(line);
    RereadProject(line);
    RereadFull(line);
    JudgeSpec(row);
  }

  lemma RereadProject(line: seq<string>)
    requires |line| == |Fields|
    ensures HasCells(Reread(line)) && Project(Reread(line)) == line
  {
    var row := Reread(line);
    forall f | f in Fields ensures f in row && row[f].Some? {
      var j :| 0 <= j < |Fields| && Fields[j] == f;
    }
  }

  lemma RereadFull(line: seq<string>)
    requires CleanLine(line)
    ensures YearParses(Reread(line)) && ParsedYear(Reread(line)) > 1999 && FullRow(Reread(line))
  {
    var row := Reread(line);
    assert Fields[0] == "year";
    assert row["year"] == Some(line[0]);
    forall j | 0 <= j < |Fields|
      ensures Fields[j] in row && row[Fields[j]].Some? && !IsBlank(row[Fields[j]].value)
    {
      assert row[Fields[j]] == Some(line[j]);
    }
  }

  /** Idempotence: refining the refiner's own output writes the same lines
      and raises nothing. */
  lemma RefineIdempotent(rows: seq<Record>)
    ensures forall line :: line in Refined(rows).written ==> |line| == |Fields|
    ensures Refined(RereadAll(Refined(rows).written)) == Run(Refined(rows).written, None)
  {
    RefinedClean(rows);
    RefineCleanLines(Refined(rows).written);
  }

  lemma RefineCleanLines(lines: seq<seq<string>>)
    requires forall line :: line in lines ==> |line| == |Fields| && CleanLine(line)
    ensures Refined(RereadAll(lines)) == Run(lines, None)
  {
    RereadVerdicts(lines);
    WrittenWriteAll(lines);
  }

  /** The verdict `Write(line)` for each line, in order. */
  function WriteAll(lines: seq<seq<string>>): (vs: seq<Verdict>)
    ensures |vs| == |lines| && forall k :: 0 <= k < |lines| ==> vs[k] == Write(lines[k])
  {
    if lines == [] then [] else [Write(lines[0])] + WriteAll(lines[1..])
  }

  lemma RereadVerdicts(lines: seq<seq<string>>)
    requires forall line :: line in lines ==> |line| == |Fields| && CleanLine(line)
    ensures Verdicts(RereadAll(lines)) == WriteAll(lines)
  {
    var rows := RereadAll(lines);
    forall k | 0 <= k < |lines| ensures Verdicts(rows)[k] == WriteAll(lines)[k] {
      VerdictsAt(rows, k);
      RereadKept(lines[k]);
    }
  }

  lemma {:induction false} WrittenWriteAll(lines: seq<seq<string>>)
    ensures Written(WriteAll(lines)) == Run(lines, None)
  {
    if lines != [] {
      WrittenWriteAll(lines[1..]);
      assert WriteAll(lines)[1..] == WriteAll(lines[1..]);
      assert [lines[0]] + lines[1..] == lines;
    }
  }
}
