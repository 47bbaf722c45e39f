/** The trainer (model/model.py), restricted to what it decides itself:
    the split of the refined rows by year into a training and a held-out
    set, the classes the classifier will know, and the per-column empirical
    priors saved in the bundle beside the fitted pipeline. */
module Trainer {
  import opened Common

  /** The seven model inputs, in the order the frame `X` lists them. */
  const FeatureCols: seq<string> := ["year", "region", "province", "gender", "age_cats", "degree", "language"]

  /** The six categorical inputs, the ones given a prior. */
  const CatCols: seq<string> := ["region", "province", "gender", "age_cats", "degree", "language"]

  const TrainYears: set<int> := {2014, 2015, 2016, 2018, 2020, 2019, 2021, 2022}
  const TestYears: set<int> := {2023}

  /** The persisted bundle: the fitted pipeline, of which only the classes it
      knows are modelled, and the priors by column name. */
  datatype Bundle = Bundle(classes: seq<int>, priors: map<string, Series>)

  /** The two halves of the data by year, as the script names them. */
  datatype Split = Split(trainRows: seq<Row>, xTrain: Frame, yTrain: seq<int>,
                         testRows: seq<Row>, xTest: Frame, yTest: seq<int>)

  /** Every row carries a code for each of the given columns. */
  ghost predicate HasColumns(rows: seq<Row>, cols: seq<string>)
  {
    forall r, c :: r in rows && c in cols ==> c in r
  }

  /** The columns the script reads, all present: the frame `pd.read_csv`
      makes of the refiner's output. */
  ghost predicate Readable(df: Frame)
  {
    HasColumns(df.rows, FeatureCols + ["vote_intention"])
  }

  /** `df[df["year"].isin(years)]`: the rows whose year is in `years`, in
      order, each as often as it occurs. */
  function WhereYearIn(rows: seq<Row>, years: set<int>): (kept: seq<Row>)
    requires forall r :: r in rows ==> "year" in r
    ensures |kept| <= |rows|
    ensures forall r :: r in kept <==> r in rows && r["year"] in years
  {
    if rows == [] then []
    else (if rows[0]["year"] in years then [rows[0]] else []) + WhereYearIn(rows[1..], years)
  }

  /** A kept row is kept as often as it occurs; any other row not at all. */
  lemma {:induction false} WhereYearInCounts(rows: seq<Row>, years: set<int>, r: Row)
    requires forall r :: r in rows ==> "year" in r
    ensures multiset(WhereYearIn(rows, years))[r] ==
      if r in rows && r["year"] in years then multiset(rows)[r] else 0
  {
    if rows != [] {
      assert rows == [rows[0]] + rows[1..];
      WhereYearInCounts(rows[1..], years, r);
    }
  }

  /** The mask keeps row order: filtering `a + b` filters `a`, then `b`. */
  lemma {:induction false} WhereYearInAppend(a: seq<Row>, b: seq<Row>, years: set<int>)
    requires forall r :: r in a + b ==> "year" in r
    ensures WhereYearIn(a + b, years) == WhereYearIn(a, years) + WhereYearIn(b, years)
  {
    if a == [] {
      assert a + b == b;
    } else {
      assert (a + b)[0] == a[0] && (a + b)[1..] == a[1..] + b;
      WhereYearInAppend(a[1..], b, years);
    }
  }

  /** `frame[cols]`: every row cut down to `cols`, with `cols` as the column labels. */
  function Select(rows: seq<Row>, cols: seq<string>): (f: Frame)
    requires HasColumns(rows, cols)
    ensures f.columns == cols && |f.rows| == |rows|
    ensures forall i :: 0 <= i < |rows| ==>
      f.rows[i].Keys == (set c | c in cols) && forall c :: c in cols ==> f.rows[i][c] == rows[i][c]
  {
    Frame(cols, seq(|rows|, i requires 0 <= i < |rows| => map c | c in cols :: rows[i][c]))
  }

  /** `frame[col]`: one column's codes, row by row. */
  function Column(rows: seq<Row>, col: string): (codes: seq<int>)
    requires forall r :: r in rows ==> col in r
    ensures |codes| == |rows| && forall i :: 0 <= i < |rows| ==> codes[i] == rows[i][col]
  {
    seq(|rows|, i requires 0 <= i < |rows| => rows[i][col])
  }

  /** The partition of model/model.py: training rows are those of the eight
      training years, test rows those of 2023; both feature frames have
      the seven feature columns, in the same order. */
  function Partition(df: Frame): (s: Split)
    requires Readable(df)
    ensures s.xTrain.columns == FeatureCols && s.xTest.columns == FeatureCols
    ensures forall r :: r in s.trainRows <==> r in df.rows && r["year"] in TrainYears
    ensures forall r :: r in s.testRows <==> r in df.rows && r["year"] == 2023
    ensures s.trainRows == WhereYearIn(df.rows, TrainYears) && s.testRows == WhereYearIn(df.rows, TestYears)
    ensures HasColumns(s.trainRows, FeatureCols) && HasColumns(s.testRows, FeatureCols)
    ensures s.xTrain == Select(s.trainRows, FeatureCols) && s.xTest == Select(s.testRows, FeatureCols)
    ensures forall r :: r in s.trainRows + s.testRows ==> "vote_intention" in r
    ensures s.yTrain == Column(s.trainRows, "vote_intention") && s.yTest == Column(s.testRows, "vote_intention")
    ensures |s.xTrain.rows| == |s.yTrain| == |s.trainRows|
    ensures |s.xTest.rows| == |s.yTest| == |s.testRows|
  {
    assert forall r :: r in df.rows ==> "year" in r && "vote_intention" in r by {
      assert "year" in FeatureCols + ["vote_intention"];
      assert "vote_intention" in FeatureCols + ["vote_intention"];
    }
    var train := WhereYearIn(df.rows, TrainYears);
    var test := WhereYearIn(df.rows, TestYears);
    assert HasColumns(train, FeatureCols) && HasColumns(test, FeatureCols);
    Split(train, Select(train, FeatureCols), Column(train, "vote_intention"),
          test, Select(test, FeatureCols), Column(test, "vote_intention"))
  }

  /** No row is both trained on and tested on, and a row of any year other
      than the nine named (2017, say) is in neither half. */
  lemma PartitionDisjoint(df: Frame, r: Row)
    requires Readable(df)
    ensures !(r in Partition(df).trainRows && r in Partition(df).testRows)
    ensures r in df.rows && r["year"] !in TrainYears + TestYears ==>
      r !in Partition(df).trainRows && r !in Partition(df).testRows
  {
  }

  /** The distinct codes of `xs`, in order of first appearance. */
  function Uniques(xs: seq<int>): (us: seq<int>)
    ensures Distinct(us)
    ensures forall v :: v in us <==> v in xs
  {
    if xs == [] then []
    else
      var us := Uniques(xs[..|xs| - 1]);
      var x := xs[|xs| - 1];
      assert xs == xs[..|xs| - 1] + [x];
      if x in us then us else us + [x]
  }

  /** Each code's count divided by the number of rows. */
  function Shares(us: seq<int>, xs: seq<int>): (ws: seq<real>)
    requires |xs| > 0
    ensures |ws| == |us|
  {
    if us == [] then []
    else [multiset(xs)[us[0]] as real / |xs| as real] + Shares(us[1..], xs)
  }

  /** `series.value_counts(normalize=True)`: every distinct code, with its
      count over the number of rows. An empty column gives an empty series. */
  function ValueCounts(xs: seq<int>): (s: Series)
    ensures |s.index| == |s.values|
    ensures s.index == [] <==> xs == []
  {
    if xs == [] then Series([], []) else Series(Uniques(xs), Shares(Uniques(xs), xs))
  }

  /** The support of a column's prior is exactly the set of codes seen in
      that column, each listed once, each with a positive share; shares are
      count over total. */
  lemma ValueCountsSupport(xs: seq<int>)
    ensures |ValueCounts(xs).index| == |ValueCounts(xs).values|
    ensures Distinct(ValueCounts(xs).index)
    ensures forall v :: v in ValueCounts(xs).index <==> v in xs
    ensures forall i :: 0 <= i < |ValueCounts(xs).index| ==>
      ValueCounts(xs).values[i] == multiset(xs)[ValueCounts(xs).index[i]] as real / |xs| as real
    ensures forall i :: 0 <= i < |ValueCounts(xs).values| ==> ValueCounts(xs).values[i] > 0.0
  {
    if xs != [] {
      var us := Uniques(xs);
      var ws := Shares(us, xs);
      assert ValueCounts(xs) == Series(us, ws);
      forall i | 0 <= i < |us|
        ensures ws[i] == multiset(xs)[us[i]] as real / |xs| as real
        ensures ws[i] > 0.0
      {
        SharesAt(us, xs, i);
        assert us[i] in xs;
        DivPositive(multiset(xs)[us[i]] as real, |xs| as real);
      }
    }
  }

  lemma {:induction false} SharesAt(us: seq<int>, xs: seq<int>, i: nat)
    requires |xs| > 0 && i < |us|
    ensures Shares(us, xs)[i] == multiset(xs)[us[i]] as real / |xs| as real
  {
    if i > 0 {
      SharesAt(us[1..], xs, i - 1);
    }
  }

  /** The shares of a non-empty column's prior sum to one. */
  lemma ValueCountsSumToOne(xs: seq<int>)
    requires |xs| > 0
    ensures Sum(ValueCounts(xs).values) == 1.0
  {
    var us := Uniques(xs);
    assert ValueCounts(xs).values == Shares(us, xs);
    CountsOfUniques(xs);
    SharesSum(us, xs);
    DivSelf(|xs| as real);
  }

  /** Summing count/total over codes is summing the counts, then dividing. */
  lemma {:induction false} SharesSum(us: seq<int>, xs: seq<int>)
    requires |xs| > 0
    ensures Sum(Shares(us, xs)) == NatSum(Counts(us, xs)) as real / |xs| as real
  {
    if us != [] {
      SharesSum(us[1..], xs);
      DivAdd(multiset(xs)[us[0]] as real, NatSum(Counts(us[1..], xs)) as real, |xs| as real);
    }
  }

  /** Every row is counted once under its own code. */
  lemma CountsOfUniques(xs: seq<int>)
    ensures NatSum(Counts(Uniques(xs), xs)) == |xs|
  {
    CountsCover(Uniques(xs), xs);
  }

  /** The priors loop: for each categorical column, the value counts of the
      training rows' codes in that column. */
  method BuildPriors(train: seq<Row>) returns (priors: map<string, Series>)
    requires HasColumns(train, CatCols)
    ensures priors.Keys == set c | c in CatCols
    ensures forall c :: c in CatCols ==> priors[c] == ValueCounts(Column(train, c))
  {
    priors := map[];
    var k := 0;
    while k < |CatCols|
      invariant 0 <= k <= |CatCols|
      invariant priors.Keys == set c | c in CatCols[..k]
      invariant forall c :: c in CatCols[..k] ==> priors[c] == ValueCounts(Column(train, c))
    {
      var col := CatCols[k];
      priors := priors[col := ValueCounts(Column(train, col))];
      assert CatCols[..k + 1] == CatCols[..k] + [col];
      k := k + 1;
    }
    assert CatCols[..k] == CatCols;
  }

  /** Inserts `x` into a strictly increasing sequence, unless already there. */
  function InsertSorted(s: seq<int>, x: int): (r: seq<int>)
    requires StrictlyIncreasing(s)
    ensures StrictlyIncreasing(r)
    ensures forall v :: v in r <==> v in s || v == x
  {
    if s == [] then [x]
    else if x < s[0] then
      Above(s);
      Prepend(x, s);
      [x] + s
    else if x == s[0] then s
    else
      var rest := InsertSorted(s[1..], x);
      Above(s);
      Prepend(s[0], rest);
      [s[0]] + rest
  }

  /** The tail of a strictly increasing sequence lies above its head. */
  lemma Above(s: seq<int>)
    requires StrictlyIncreasing(s) && s != []
    ensures StrictlyIncreasing(s[1..])
    ensures forall v :: v in s[1..] ==> s[0] < v
  {
    forall v | v in s[1..]
      ensures s[0] < v
    {
      var i :| 0 <= i < |s[1..]| && s[1..][i] == v;
      assert s[i + 1] == v;
    }
  }

  /** A value below every element of a strictly increasing sequence can go first. */
  lemma Prepend(x: int, s: seq<int>)
    requires StrictlyIncreasing(s) && forall v :: v in s ==> x < v
    ensures StrictlyIncreasing([x] + s)
  {
    var r := [x] + s;
    forall i, j | 0 <= i < j < |r|
      ensures r[i] < r[j]
    {
      assert r[j] == s[j - 1] && s[j - 1] in s;
      if i > 0 {
        assert r[i] == s[i - 1];
      }
    }
  }

  predicate StrictlyIncreasing(s: seq<int>)
  {
    forall i, j :: 0 <= i < j < |s| ==> s[i] < s[j]
  }

  /** The classifier's `classes_`: the distinct labels it was fitted on, in
      increasing order. */
  function SortedLabels(ys: seq<int>): (classes: seq<int>)
    ensures StrictlyIncreasing(classes)
    ensures forall v :: v in classes <==> v in ys
  {
    if ys == [] then []
    else
      var rest := SortedLabels(ys[..|ys| - 1]);
      assert ys == ys[..|ys| - 1] + [ys[|ys| - 1]];
      InsertSorted(rest, ys[|ys| - 1])
  }

  /** Why `model.fit` refuses the training half: there is no row to fit
      on, or every row has the same label and the classifier needs two. */
  datatype FitError = NoSamples | SingleClass

  /** The script up to the bundle: split by year, fit on the training half
      (only the classes the fit learns are modelled; the fit fails as
      `FitError` says), and build the priors from the training rows alone. */
  method Train(df: Frame) returns (split: Split, result: Result<Bundle, FitError>)
    requires Readable(df)
    ensures split == Partition(df)
    ensures split.trainRows == [] <==> result == Err(NoSamples)
    ensures split.trainRows != [] && |SortedLabels(split.yTrain)| < 2 <==> result == Err(SingleClass)
    ensures result.Ok? ==> |SortedLabels(split.yTrain)| >= 2
    ensures result.Ok? ==> result.value.classes == SortedLabels(split.yTrain)
    ensures result.Ok? ==> result.value.priors.Keys == set c | c in CatCols
    ensures result.Ok? ==> forall c :: c in CatCols ==> result.value.priors[c] == ValueCounts(Column(split.trainRows, c))
  {
    split := Partition(df);
    if split.trainRows == [] {
      return split, Err(NoSamples);
    }
    var classes := SortedLabels(split.yTrain);
    if |classes| < 2 {
      return split, Err(SingleClass);
    }
    assert HasColumns(split.trainRows, CatCols) by {
      forall r, c | r in split.trainRows && c in CatCols ensures c in r {
        assert c in FeatureCols + ["vote_intention"];
      }
    }
    var priors := BuildPriors(split.trainRows);
    result := Ok(Bundle(classes, priors));
  }
}
