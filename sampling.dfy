/** The synthetic-voter sampler of model/sampling.py: numpy's weighted
    `choice`, one categorical value drawn from a column's prior, and the
    frame of `n` synthetic voters with the user's pinned values kept and
    every other categorical column drawn from its prior. */
module Sampling {
  import opened Common

  /** The seven columns of a sampled frame, in order. */
  const FeatureCols: seq<string> := ["year", "region", "province", "gender", "age_cats", "degree", "language"]

  /** The six columns that are pinned or drawn from a prior, in drawing order. */
  const CatCols: seq<string> := ["region", "province", "gender", "age_cats", "degree", "language"]

  /** The year given to a voter when the caller pins none. */
  const DefaultYear := 2023

  /** The caller's pinned values: column name to a code, or to `None`. */
  type Pins = map<string, Option<int>>

  /** A seeded generator's output: its k-th uniform draw. Which seed gives
      which stream is numpy's business and is not modelled. */
  type Stream = nat -> real

  /** Every draw lies in [0, 1), as `Generator.random()` promises. */
  ghost predicate Uniform(draws: Stream)
  {
    forall k: nat :: 0.0 <= draws(k) < 1.0
  }

  /** Why numpy's `Generator.choice(a, p=p)` raises `ValueError`, in the
      order it checks. */
  datatype ChoiceError = EmptyPopulation | SizeMismatch | NegativeProbability | NotSummingToOne

  /** The first argument check of `choice(vals, p=probs)` that fails, if any. */
  function CheckChoice(vals: seq<int>, probs: seq<real>): (e: Option<ChoiceError>)
    ensures e == None <==>
      |vals| > 0 && |probs| == |vals| && (forall i :: 0 <= i < |probs| ==> probs[i] >= 0.0) && Sum(probs) == 1.0
  {
    if |vals| == 0 then Some(EmptyPopulation)
    else if |probs| != |vals| then Some(SizeMismatch)
    else if exists i :: 0 <= i < |probs| && probs[i] < 0.0 then Some(NegativeProbability)
    else if Sum(probs) != 1.0 then Some(NotSummingToOne)
    else None
  }

  /** `cdf.searchsorted(u, side="right")` on the running sums of `probs`:
      the first index whose running sum exceeds `u`. */
  function Pick(probs: seq<real>, u: real): (i: nat)
    ensures i <= |probs|
  {
    if probs == [] || probs[0] > u then 0 else 1 + Pick(probs[1..], u - probs[0])
  }

  /** A draw in [0, total) lands on an index of the weights, never on one of
      weight zero. */
  lemma {:induction false} PickInRange(probs: seq<real>, u: real)
    requires forall i :: 0 <= i < |probs| ==> probs[i] >= 0.0
    requires 0.0 <= u < Sum(probs)
    ensures Pick(probs, u) < |probs| && probs[Pick(probs, u)] > 0.0
  {
    if probs[0] <= u {
      PickInRange(probs[1..], u - probs[0]);
    }
  }

  /** Inverse-CDF sampling: the draw `u` picks index `i` exactly when `u`
      falls in `i`'s interval [Sum(probs[..i]), Sum(probs[..i+1])), whose
      width is `probs[i]`. */
  lemma {:induction false} PickInterval(probs: seq<real>, u: real, i: nat)
    requires forall k :: 0 <= k < |probs| ==> probs[k] >= 0.0
    requires u >= 0.0 && i < |probs|
    ensures Pick(probs, u) == i <==> Sum(probs[..i]) <= u < Sum(probs[..i + 1])
  {
    assert probs[..1] == [probs[0]];
    if i > 0 {
      assert probs[1..][..i - 1] == probs[..i][1..];
      assert probs[1..][..i] == probs[..i + 1][1..];
      if probs[0] <= u {
        PickInterval(probs[1..], u - probs[0], i - 1);
      } else {
        SumPrefixAtLeast(probs, i);
      }
    }
  }

  /** With non-negative weights, a running sum never falls below the first weight. */
  lemma {:induction false} SumPrefixAtLeast(probs: seq<real>, i: nat)
    requires forall k :: 0 <= k < |probs| ==> probs[k] >= 0.0
    requires 0 < i <= |probs|
    ensures Sum(probs[..i]) >= probs[0]
  {
    assert probs[..i][1..] == probs[1..][..i - 1];
    SumNonNegative(probs[1..][..i - 1]);
  }

  lemma {:induction false} SumNonNegative(xs: seq<real>)
    requires forall k :: 0 <= k < |xs| ==> xs[k] >= 0.0
    ensures Sum(xs) >= 0.0
  {
    if xs != [] {
      SumNonNegative(xs[1..]);
    }
  }

  /** `choice(vals, p=probs)` fed the uniform draw `u`: an error when the
      arguments are rejected, otherwise the value at the picked index. */
  function Draw(vals: seq<int>, probs: seq<real>, u: real): (r: Result<int, ChoiceError>)
    requires 0.0 <= u < 1.0
    ensures r.Err? <==> CheckChoice(vals, probs).Some?
    ensures r.Err? ==> r.error == CheckChoice(vals, probs).value
    ensures r.Ok? ==> exists i :: 0 <= i < |vals| && vals[i] == r.value && probs[i] > 0.0
  {
    match CheckChoice(vals, probs)
    case Some(e) => Err(e)
    case None =>
      PickInRange(probs, u);
      Ok(vals[Pick(probs, u)])
  }

  /** A seeded numpy generator: the stream it was seeded with and how many
      uniforms it has handed out so far. */
  class Generator {
    const draws: Stream
    var position: nat

    /** `np.random.default_rng(seed)`, the seed's stream given as `draws`. */
    constructor (draws: Stream)
      ensures this.draws == draws && position == 0
    {
      this.draws := draws;
      position := 0;
    }

    /** `rng.choice(vals, p=probs)`: validates its arguments first and uses
        up one uniform only when they are accepted. */
    method Choice(vals: seq<int>, probs: seq<real>) returns (r: Result<int, ChoiceError>)
      requires Uniform(draws)
      modifies this
      ensures r == Draw(vals, probs, draws(old(position)))
      ensures position == old(position) + (if r.Ok? then 1 else 0)
    {
      if CheckChoice(vals, probs).Some? {
        return Err(CheckChoice(vals, probs).value);
      }
      var u := draws(position);
      r := Draw(vals, probs, u);
      position := position + 1;
    }
  }

  /** `sample_from_prior`: one code drawn from a prior, weighted by its shares. */
  method SampleFromPrior(prior: Series, rng: Generator) returns (r: Result<int, ChoiceError>)
    requires Uniform(rng.draws)
    modifies rng
    ensures r == Draw(prior.index, prior.values, rng.draws(old(rng.position)))
    ensures rng.position == old(rng.position) + (if r.Ok? then 1 else 0)
  {
    r := rng.Choice(prior.index, prior.values);
  }

  /** Why `build_samples` raises: `int(None)` on a year pinned to `None`
      (`TypeError`), a drawn column with no prior (`KeyError`), or a prior
      that `choice` rejects (`ValueError`). */
  datatype SampleError = YearIsNone | MissingPrior(col: string) | BadPrior(col: string, reason: ChoiceError)

  /** The caller pinned `col` to a code. */
  predicate Pinned(fixed: Pins, col: string)
  {
    col in fixed && fixed[col].Some?
  }

  /** `int(user_fixed.get("year", 2023))`. */
  function YearOf(fixed: Pins): (r: Result<int, SampleError>)
    ensures r.Err? <==> "year" in fixed && fixed["year"].None?
    ensures r.Ok? ==> r.value == (if "year" in fixed then fixed["year"].value else DefaultYear)
  {
    if "year" !in fixed then Ok(DefaultYear)
    else if fixed["year"].None? then Err(YearIsNone)
    else Ok(fixed["year"].value)
  }

  /** How many of `cols` are drawn rather than pinned: the uniforms one row
      uses up for them. */
  function DrawsFor(fixed: Pins, cols: seq<string>): nat
  {
    if cols == [] then 0
    else DrawsFor(fixed, cols[..|cols| - 1]) + (if Pinned(fixed, cols[|cols| - 1]) then 0 else 1)
  }

  /** What goes wrong with column `col`, if anything, when it is drawn. */
  function ColumnError(fixed: Pins, priors: map<string, Series>, col: string): Option<SampleError>
  {
    if Pinned(fixed, col) then None
    else if col !in priors then Some(MissingPrior(col))
    else match CheckChoice(priors[col].index, priors[col].values)
      case Some(e) => Some(BadPrior(col, e))
      case None => None
  }

  /** The first failing column among `CatCols[j..]`, in drawing order. */
  function FirstColumnError(fixed: Pins, priors: map<string, Series>, j: nat): Option<SampleError>
    requires j <= |CatCols|
    decreases |CatCols| - j
  {
    if j == |CatCols| then None
    else if ColumnError(fixed, priors, CatCols[j]).Some? then ColumnError(fixed, priors, CatCols[j])
    else FirstColumnError(fixed, priors, j + 1)
  }

  /** The error the first voter raises, if any: the year first, then the
      columns in order. Later voters raise nothing new. */
  function FirstError(fixed: Pins, priors: map<string, Series>): Option<SampleError>
  {
    if YearOf(fixed).Err? then Some(YearOf(fixed).error) else FirstColumnError(fixed, priors, 0)
  }

  /** None of the first `j` columns fails. */
  predicate ColumnsOk(fixed: Pins, priors: map<string, Series>, j: nat)
    requires j <= |CatCols|
  {
    forall k :: 0 <= k < j ==> ColumnError(fixed, priors, CatCols[k]) == None
  }

  /** Nothing in `fixed` or `priors` makes a voter raise. */
  predicate Sound(fixed: Pins, priors: map<string, Series>)
  {
    YearOf(fixed).Ok? && ColumnsOk(fixed, priors, |CatCols|)
  }

  /** Voter `i`'s code in column `CatCols[j]`: the pinned code, or the prior
      draw fed uniform number `i * K + s`, where `K` is the number of drawn
      columns per voter and `s` the number drawn before this one. */
  function VoterCode(fixed: Pins, priors: map<string, Series>, draws: Stream, i: nat, j: nat): int
    requires Uniform(draws)
    requires j < |CatCols| && ColumnError(fixed, priors, CatCols[j]) == None
  {
    var col := CatCols[j];
    if Pinned(fixed, col) then fixed[col].value
    else
      var prior := priors[col];
      Draw(prior.index, prior.values, draws(i * DrawsFor(fixed, CatCols) + DrawsFor(fixed, CatCols[..j]))).value
  }

  /** Voter `i`'s row after its year and its first `j` categorical columns. */
  function RowUpTo(fixed: Pins, priors: map<string, Series>, draws: Stream, i: nat, j: nat): Row
    requires Uniform(draws) && YearOf(fixed).Ok?
    requires j <= |CatCols| && ColumnsOk(fixed, priors, j)
  {
    if j == 0 then map["year" := YearOf(fixed).value]
    else RowUpTo(fixed, priors, draws, i, j - 1)[CatCols[j - 1] := VoterCode(fixed, priors, draws, i, j - 1)]
  }

  /** The first `n` voters' rows. */
  function Voters(fixed: Pins, priors: map<string, Series>, draws: Stream, n: nat): (rows: seq<Row>)
    requires Uniform(draws) && Sound(fixed, priors)
    ensures |rows| == n
  {
    seq(n, i requires 0 <= i < n => RowUpTo(fixed, priors, draws, i, |CatCols|))
  }

  /** The frame `build_samples` returns: no voter and no error when `n` is
      not positive, the first voter's error if it raises, and otherwise `n`
      full rows under the seven feature columns. */
  function Samples(fixed: Pins, priors: map<string, Series>, n: int, draws: Stream): (r: Result<Frame, SampleError>)
    requires Uniform(draws)
    ensures r.Err? <==> n > 0 && FirstError(fixed, priors).Some?
    ensures r.Ok? ==> r.value.columns == FeatureCols && |r.value.rows| == (if n > 0 then n else 0)
  {
    if n <= 0 then Ok(Frame(FeatureCols, []))
    else if FirstError(fixed, priors).Some? then Err(FirstError(fixed, priors).value)
    else
      SoundIff(fixed, priors);
      Ok(Frame(FeatureCols, Voters(fixed, priors, draws, n)))
  }

  /** No failing column from `j` on means every column from `j` on is sound. */
  lemma {:induction false} FirstColumnErrorNone(fixed: Pins, priors: map<string, Series>, j: nat)
    requires j <= |CatCols|
    ensures FirstColumnError(fixed, priors, j) == None <==>
      forall k :: j <= k < |CatCols| ==> ColumnError(fixed, priors, CatCols[k]) == None
    decreases |CatCols| - j
  {
    if j < |CatCols| {
      FirstColumnErrorNone(fixed, priors, j + 1);
    }
  }

  lemma SoundIff(fixed: Pins, priors: map<string, Series>)
    ensures Sound(fixed, priors) <==> FirstError(fixed, priors) == None
  {
    FirstColumnErrorNone(fixed, priors, 0);
  }

  /** With the first `j` columns sound, the first failing column is found
      from `j` on. */
  lemma {:induction false} FirstColumnErrorFrom(fixed: Pins, priors: map<string, Series>, j: nat)
    requires j <= |CatCols| && ColumnsOk(fixed, priors, j)
    ensures FirstColumnError(fixed, priors, 0) == FirstColumnError(fixed, priors, j)
  {
    if j > 0 {
      FirstColumnErrorFrom(fixed, priors, j - 1);
    }
  }

  /** One drawn column adds one to the uniforms a row has used, a pinned one nothing. */
  lemma DrawsForStep(fixed: Pins, cols: seq<string>, j: nat)
    requires j < |cols|
    ensures DrawsFor(fixed, cols[..j + 1]) == DrawsFor(fixed, cols[..j]) + (if Pinned(fixed, cols[j]) then 0 else 1)
  {
    assert cols[..j + 1][..j] == cols[..j];
  }

  /** One pass of `build_samples`'s inner loop: voter `i`'s code in column
      `CatCols[j]`, pinned or drawn from the column's prior. */
  method SampleColumn(fixed: Pins, priors: map<string, Series>, rng: Generator, i: nat, j: nat)
    returns (r: Result<int, SampleError>)
    requires Uniform(rng.draws) && j < |CatCols|
    requires rng.position == i * DrawsFor(fixed, CatCols) + DrawsFor(fixed, CatCols[..j])
    modifies rng
    ensures r.Err? <==> ColumnError(fixed, priors, CatCols[j]).Some?
    ensures r.Err? ==> ColumnError(fixed, priors, CatCols[j]) == Some(r.error)
    ensures r.Ok? ==> r.value == VoterCode(fixed, priors, rng.draws, i, j)
    ensures r.Ok? ==> rng.position == i * DrawsFor(fixed, CatCols) + DrawsFor(fixed, CatCols[..j + 1])
  {
    var col := CatCols[j];
    DrawsForStep(fixed, CatCols, j);
    if col in fixed && fixed[col].Some? {
      return Ok(fixed[col].value);
    }
    if col !in priors {
      return Err(MissingPrior(col));
    }
    var v := SampleFromPrior(priors[col], rng);
    if v.Err? {
      return Err(BadPrior(col, v.error));
    }
    r := Ok(v.value);
  }

  /** One pass of `build_samples`'s outer loop: voter `i`'s row, drawing
      its unpinned columns from `rng` in column order. Any error it raises
      is the first error of the whole call. */
  method SampleVoter(fixed: Pins, priors: map<string, Series>, rng: Generator, i: nat)
    returns (r: Result<Row, SampleError>)
    requires Uniform(rng.draws)
    requires rng.position == i * DrawsFor(fixed, CatCols)
    modifies rng
    ensures r.Err? ==> FirstError(fixed, priors) == Some(r.error)
    ensures r.Ok? ==> Sound(fixed, priors)
    ensures r.Ok? ==> r.value == RowUpTo(fixed, priors, rng.draws, i, |CatCols|)
    ensures r.Ok? ==> rng.position == old(rng.position) + DrawsFor(fixed, CatCols)
  {
    var year := YearOf(fixed);
    if year.Err? {
      return Err(year.error);
    }
    var row: Row := map["year" := year.value];
    var j := 0;
    while j < |CatCols|
      invariant 0 <= j <= |CatCols|
      invariant ColumnsOk(fixed, priors, j)
      invariant rng.position == old(rng.position) + DrawsFor(fixed, CatCols[..j])
      invariant row == RowUpTo(fixed, priors, rng.draws, i, j)
    {
      var v := SampleColumn(fixed, priors, rng, i, j);
      if v.Err? {
        FirstColumnErrorFrom(fixed, priors, j);
        return Err(v.error);
      }
      assert ColumnsOk(fixed, priors, j + 1);
      row := row[CatCols[j] := v.value];
      assert row == RowUpTo(fixed, priors, rng.draws, i, j + 1);
      j := j + 1;
    }
    assert CatCols[..j] == CatCols;
    r := Ok(row);
  }

  /** `build_samples(user_fixed, priors, n, seed)`, the seed's stream given
      as `draws`. */
  method BuildSamples(fixed: Pins, priors: map<string, Series>, n: int, draws: Stream)
    returns (r: Result<Frame, SampleError>)
    requires Uniform(draws)
    ensures r == Samples(fixed, priors, n, draws)
  {
    var rng := new Generator(draws);
    var rows: seq<Row> := [];
    ghost var perRow := DrawsFor(fixed, CatCols);
    var i := 0;
    while i < n
      invariant 0 <= i && (i == 0 || i <= n)
      invariant rng.draws == draws
      invariant rng.position == i * perRow
      invariant i > 0 ==> Sound(fixed, priors)
      invariant |rows| == i
      invariant i > 0 ==> forall k :: 0 <= k < i ==> rows[k] == RowUpTo(fixed, priors, draws, k, |CatCols|)
      decreases n - i
    {
      var row := SampleVoter(fixed, priors, rng, i);
      if row.Err? {
        assert 0 < n && FirstError(fixed, priors) == Some(row.error);
        return Err(row.error);
      }
      assert (i + 1) * perRow == i * perRow + perRow;
      rows := rows + [row.value];
      i := i + 1;
    }
    if n > 0 {
      SoundIff(fixed, priors);
      assert rows == Voters(fixed, priors, draws, n);
    }
    r := Ok(Frame(FeatureCols, rows));
  }

  /** The literal facts the row lemmas lean on: the drawn columns are six
      different names, none of them "year". */
  lemma CatColsFacts()
    ensures Distinct(CatCols) && "year" !in CatCols
    ensures FeatureCols == ["year"] + CatCols
  {
  }

  /** A row under construction holds the year and exactly the first `j`
      categorical columns, each with its own cell. */
  lemma RowUpToFacts(fixed: Pins, priors: map<string, Series>, draws: Stream, i: nat, j: nat)
    requires Uniform(draws) && YearOf(fixed).Ok?
    requires j <= |CatCols| && ColumnsOk(fixed, priors, j)
    ensures RowUpTo(fixed, priors, draws, i, j).Keys == {"year"} + set c | c in CatCols[..j]
    ensures forall k :: 0 <= k < j ==> CatCols[k] in RowUpTo(fixed, priors, draws, i, j)
    ensures RowUpTo(fixed, priors, draws, i, j)["year"] == YearOf(fixed).value
    ensures forall k :: 0 <= k < j ==> RowUpTo(fixed, priors, draws, i, j)[CatCols[k]] == VoterCode(fixed, priors, draws, i, k)
  {
    RowUpToKeys(fixed, priors, draws, i, j);
    RowUpToYear(fixed, priors, draws, i, j);
    RowUpToCells(fixed, priors, draws, i, j);
  }

  lemma {:induction false} RowUpToKeys(fixed: Pins, priors: map<string, Series>, draws: Stream, i: nat, j: nat)
    requires Uniform(draws) && YearOf(fixed).Ok?
    requires j <= |CatCols| && ColumnsOk(fixed, priors, j)
    ensures RowUpTo(fixed, priors, draws, i, j).Keys == {"year"} + set c | c in CatCols[..j]
  {
    if j > 0 {
      RowUpToKeys(fixed, priors, draws, i, j - 1);
      assert CatCols[..j] == CatCols[..j - 1] + [CatCols[j - 1]];
    }
  }

  lemma {:induction false} RowUpToYear(fixed: Pins, priors: map<string, Series>, draws: Stream, i: nat, j: nat)
    requires Uniform(draws) && YearOf(fixed).Ok?
    requires j <= |CatCols| && ColumnsOk(fixed, priors, j)
    ensures "year" in RowUpTo(fixed, priors, draws, i, j)
    ensures RowUpTo(fixed, priors, draws, i, j)["year"] == YearOf(fixed).value
  {
    if j > 0 {
      RowUpToYear(fixed, priors, draws, i, j - 1);
      CatColsFacts();
      assert CatCols[j - 1] != "year";
    }
  }

  lemma {:induction false} RowUpToCells(fixed: Pins, priors: map<string, Series>, draws: Stream, i: nat, j: nat)
    requires Uniform(draws) && YearOf(fixed).Ok?
    requires j <= |CatCols| && ColumnsOk(fixed, priors, j)
    ensures forall k :: 0 <= k < j ==> CatCols[k] in RowUpTo(fixed, priors, draws, i, j)
    ensures forall k :: 0 <= k < j ==> RowUpTo(fixed, priors, draws, i, j)[CatCols[k]] == VoterCode(fixed, priors, draws, i, k)
  {
    if j > 0 {
      RowUpToCells(fixed, priors, draws, i, j - 1);
      CatColsFacts();
      var prev := RowUpTo(fixed, priors, draws, i, j - 1);
      var row := RowUpTo(fixed, priors, draws, i, j);
      forall k | 0 <= k < j - 1
        ensures CatCols[k] in row && row[CatCols[k]] == VoterCode(fixed, priors, draws, i, k)
      {
        assert CatCols[k] != CatCols[j - 1];
      }
    }
  }

  /** A cell is the pinned code when the column is pinned, and otherwise a
      code of the column's prior with a positive share, the one the prior's
      inverse CDF gives for uniform number `i * K + s`. */
  lemma CellFacts(fixed: Pins, priors: map<string, Series>, draws: Stream, i: nat, j: nat)
    requires Uniform(draws)
    requires j < |CatCols| && ColumnError(fixed, priors, CatCols[j]) == None
    ensures Pinned(fixed, CatCols[j]) ==> VoterCode(fixed, priors, draws, i, j) == fixed[CatCols[j]].value
    ensures !Pinned(fixed, CatCols[j]) ==>
      var prior := priors[CatCols[j]];
      var p := Pick(prior.values, draws(i * DrawsFor(fixed, CatCols) + DrawsFor(fixed, CatCols[..j])));
      && p < |prior.index|
      && prior.values[p] > 0.0
      && VoterCode(fixed, priors, draws, i, j) == prior.index[p]
  {
    if !Pinned(fixed, CatCols[j]) {
      var prior := priors[CatCols[j]];
      PickInRange(prior.values, draws(i * DrawsFor(fixed, CatCols) + DrawsFor(fixed, CatCols[..j])));
    }
  }

  /** `build_samples` raises exactly when it has a voter to build and the
      first voter raises; a year pinned to `None` raises before any column
      is looked at, and no call with `n <= 0` raises at all. */
  lemma SamplesOutcome(fixed: Pins, priors: map<string, Series>, n: int, draws: Stream)
    requires Uniform(draws)
    ensures Samples(fixed, priors, n, draws).Err? <==> n > 0 && !Sound(fixed, priors)
    ensures n > 0 && "year" in fixed && fixed["year"].None? ==> Samples(fixed, priors, n, draws) == Err(YearIsNone)
    ensures n <= 0 ==> Samples(fixed, priors, n, draws) == Ok(Frame(FeatureCols, []))
  {
    SoundIff(fixed, priors);
  }

  /** The first drawn column with no prior raises `KeyError` for that column,
      provided the year and the columns before it are sound. */
  lemma MissingPriorRaises(fixed: Pins, priors: map<string, Series>, n: int, draws: Stream, j: nat)
    requires Uniform(draws) && n > 0 && YearOf(fixed).Ok?
    requires j < |CatCols| && ColumnsOk(fixed, priors, j)
    requires !Pinned(fixed, CatCols[j]) && CatCols[j] !in priors
    ensures Samples(fixed, priors, n, draws) == Err(MissingPrior(CatCols[j]))
  {
    FirstColumnErrorFrom(fixed, priors, j);
  }

  /** Every sampled voter has the seven feature columns and nothing else,
      the pinned year (2023 when none is pinned), every pinned code as
      given, and in every other column a code its prior lists with a
      positive share. */
  lemma SampledRow(fixed: Pins, priors: map<string, Series>, n: int, draws: Stream, i: nat)
    requires Uniform(draws) && Samples(fixed, priors, n, draws).Ok?
    requires i < |Samples(fixed, priors, n, draws).value.rows|
    ensures Samples(fixed, priors, n, draws).value.columns == FeatureCols
    ensures |Samples(fixed, priors, n, draws).value.rows| == (if n > 0 then n else 0)
    ensures var row := Samples(fixed, priors, n, draws).value.rows[i];
      && row.Keys == (set c | c in FeatureCols)
      && row["year"] == (if "year" in fixed then fixed["year"].value else DefaultYear)
      && (forall j :: 0 <= j < |CatCols| && Pinned(fixed, CatCols[j]) ==> row[CatCols[j]] == fixed[CatCols[j]].value)
      && (forall j :: 0 <= j < |CatCols| && !Pinned(fixed, CatCols[j]) ==> InSupport(priors, CatCols[j], row[CatCols[j]]))
  {
    SoundIff(fixed, priors);
    var rows := Voters(fixed, priors, draws, n);
    assert Samples(fixed, priors, n, draws) == Ok(Frame(FeatureCols, rows));
    assert rows[i] == RowUpTo(fixed, priors, draws, i, |CatCols|);
    VoterRow(fixed, priors, draws, i);
  }

  /** `code` is listed by `col`'s prior with a positive share. */
  ghost predicate InSupport(priors: map<string, Series>, col: string, code: int)
  {
    col in priors && exists p :: 0 <= p < |priors[col].index| && p < |priors[col].values| && priors[col].index[p] == code && priors[col].values[p] > 0.0
  }

  /** The facts of `SampledRow`, for voter `i`'s finished row. */
  lemma VoterRow(fixed: Pins, priors: map<string, Series>, draws: Stream, i: nat)
    requires Uniform(draws) && Sound(fixed, priors)
    ensures var row := RowUpTo(fixed, priors, draws, i, |CatCols|);
      && row.Keys == (set c | c in FeatureCols)
      && row["year"] == (if "year" in fixed then fixed["year"].value else DefaultYear)
      && (forall j :: 0 <= j < |CatCols| && Pinned(fixed, CatCols[j]) ==> row[CatCols[j]] == fixed[CatCols[j]].value)
      && (forall j :: 0 <= j < |CatCols| && !Pinned(fixed, CatCols[j]) ==> InSupport(priors, CatCols[j], row[CatCols[j]]))
  {
    VoterKeys(fixed, priors, draws, i);
    VoterCells(fixed, priors, draws, i);
  }

  lemma VoterKeys(fixed: Pins, priors: map<string, Series>, draws: Stream, i: nat)
    requires Uniform(draws) && Sound(fixed, priors)
    ensures RowUpTo(fixed, priors, draws, i, |CatCols|).Keys == (set c | c in FeatureCols)
    ensures RowUpTo(fixed, priors, draws, i, |CatCols|)["year"] == YearOf(fixed).value
  {
    RowUpToFacts(fixed, priors, draws, i, |CatCols|);
    CatColsFacts();
    assert CatCols[..|CatCols|] == CatCols;
  }

  lemma VoterCells(fixed: Pins, priors: map<string, Series>, draws: Stream, i: nat)
    requires Uniform(draws) && Sound(fixed, priors)
    ensures var row := RowUpTo(fixed, priors, draws, i, |CatCols|);
      forall j :: 0 <= j < |CatCols| ==>
        && CatCols[j] in row
        && (Pinned(fixed, CatCols[j]) ==> row[CatCols[j]] == fixed[CatCols[j]].value)
        && (!Pinned(fixed, CatCols[j]) ==> InSupport(priors, CatCols[j], row[CatCols[j]]))
  {
    var row := RowUpTo(fixed, priors, draws, i, |CatCols|);
    RowUpToFacts(fixed, priors, draws, i, |CatCols|);
    forall j | 0 <= j < |CatCols|
      ensures CatCols[j] in row
      ensures Pinned(fixed, CatCols[j]) ==> row[CatCols[j]] == fixed[CatCols[j]].value
      ensures !Pinned(fixed, CatCols[j]) ==> InSupport(priors, CatCols[j], row[CatCols[j]])
    {
      CellFacts(fixed, priors, draws, i, j);
    }
  }

  /** Rows built from cells that agree are the same row. */
  lemma {:induction false} RowUpToAgree(fixed: Pins, p1: map<string, Series>, p2: map<string, Series>,
                                        d1: Stream, d2: Stream, i: nat, j: nat)
    requires Uniform(d1) && Uniform(d2) && YearOf(fixed).Ok?
    requires j <= |CatCols| && ColumnsOk(fixed, p1, j) && ColumnsOk(fixed, p2, j)
    requires forall k :: 0 <= k < j ==> VoterCode(fixed, p1, d1, i, k) == VoterCode(fixed, p2, d2, i, k)
    ensures RowUpTo(fixed, p1, d1, i, j) == RowUpTo(fixed, p2, d2, i, j)
  {
    if j > 0 {
      RowUpToAgree(fixed, p1, p2, d1, d2, i, j - 1);
    }
  }

  /** A row's drawn columns take their uniforms from its own block: the
      column at `j`, when drawn, counts one more than those before it and
      no more than all of them. */
  lemma {:induction false} DrawsForPrefix(fixed: Pins, cols: seq<string>, j: nat)
    requires j < |cols|
    ensures DrawsFor(fixed, cols[..j]) + (if Pinned(fixed, cols[j]) then 0 else 1) <= DrawsFor(fixed, cols)
  {
    DrawsForStep(fixed, cols, j);
    if j + 1 < |cols| {
      var front := cols[..|cols| - 1];
      assert front[..j] == cols[..j] && front[j] == cols[j];
      DrawsForPrefix(fixed, front, j);
    } else {
      assert cols[..j + 1] == cols;
    }
  }

  /** Voter `i` reads only its own block of `K` uniforms. */
  lemma VoterUsesItsBlock(fixed: Pins, priors: map<string, Series>, d1: Stream, d2: Stream, i: nat)
    requires Uniform(d1) && Uniform(d2) && Sound(fixed, priors)
    requires forall k: nat :: i * DrawsFor(fixed, CatCols) <= k < i * DrawsFor(fixed, CatCols) + DrawsFor(fixed, CatCols) ==> d1(k) == d2(k)
    ensures RowUpTo(fixed, priors, d1, i, |CatCols|) == RowUpTo(fixed, priors, d2, i, |CatCols|)
  {
    forall j | 0 <= j < |CatCols|
      ensures VoterCode(fixed, priors, d1, i, j) == VoterCode(fixed, priors, d2, i, j)
    {
      DrawsForPrefix(fixed, CatCols, j);
    }
    RowUpToAgree(fixed, priors, priors, d1, d2, i, |CatCols|);
  }

  /** Voter `i < n`'s block lies within the first `n * K` uniforms. */
  lemma BlockInPrefix(i: nat, n: nat, perRow: nat)
    requires i < n
    ensures i * perRow + perRow <= n * perRow
  {
    assert n * perRow == (i + 1) * perRow + (n - i - 1) * perRow;
  }

  /** `build_samples` reads nothing of its stream past the first `n * K`
      uniforms, `K` being the number of drawn columns per voter: voter `i`
      uses uniforms `i * K` to `i * K + K - 1`, in column order, so two
      streams that agree on that prefix give the same frame. */
  lemma SamplesUseDrawPrefix(fixed: Pins, priors: map<string, Series>, n: int, d1: Stream, d2: Stream)
    requires Uniform(d1) && Uniform(d2)
    requires forall k: nat :: k < n * DrawsFor(fixed, CatCols) ==> d1(k) == d2(k)
    ensures Samples(fixed, priors, n, d1) == Samples(fixed, priors, n, d2)
  {
    SoundIff(fixed, priors);
    if n > 0 && Sound(fixed, priors) {
      forall i | 0 <= i < n
        ensures RowUpTo(fixed, priors, d1, i, |CatCols|) == RowUpTo(fixed, priors, d2, i, |CatCols|)
      {
        BlockInPrefix(i, n, DrawsFor(fixed, CatCols));
        VoterUsesItsBlock(fixed, priors, d1, d2, i);
      }
      assert Voters(fixed, priors, d1, n) == Voters(fixed, priors, d2, n);
    }
  }

  /** With every categorical column pinned and the year not pinned to
      `None`, `build_samples` draws nothing and never looks at a prior: the
      frame is `n` copies of the pinned row whatever the priors and the seed. */
  lemma FullyPinned(fixed: Pins, p1: map<string, Series>, p2: map<string, Series>, n: int, d1: Stream, d2: Stream)
    requires Uniform(d1) && Uniform(d2) && YearOf(fixed).Ok?
    requires forall j :: 0 <= j < |CatCols| ==> Pinned(fixed, CatCols[j])
    ensures Samples(fixed, p1, n, d1).Ok?
    ensures Samples(fixed, p1, n, d1) == Samples(fixed, p2, n, d2)
  {
    SoundIff(fixed, p1);
    SoundIff(fixed, p2);
    assert Sound(fixed, p1) && Sound(fixed, p2);
    if n > 0 {
      forall i | 0 <= i < n
        ensures RowUpTo(fixed, p1, d1, i, |CatCols|) == RowUpTo(fixed, p2, d2, i, |CatCols|)
      {
        RowUpToAgree(fixed, p1, p2, d1, d2, i, |CatCols|);
      }
      assert Voters(fixed, p1, d1, n) == Voters(fixed, p2, d2, n);
    }
  }
}
