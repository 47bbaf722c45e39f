/** What the sampling script's `main` does around `build_samples`: the
    pinned values taken from the command-line flags, the classes ranked by
    their mean predicted probability, the party labels, the simulated vote
    of every synthetic voter and the tally of those votes. The classifier's
    `predict_proba` is not modelled: its output is an input here. */
module Simulation {
  import opened Common
  import opened Decimal
  import opened Sampling

  /** The parsed command line: voter count, seed, and the seven optional
      feature flags (`None` when the flag was not given). */
  datatype Args = Args(n: int, seed: int,
                       year: Option<int>, region: Option<int>, province: Option<int>, gender: Option<int>,
                       ageCats: Option<int>, degree: Option<int>, language: Option<int>)

  /** `getattr(args, name)` for the seven feature flags. */
  function Flag(args: Args, name: string): Option<int>
    requires name in FeatureCols
  {
    if name == "year" then args.year
    else if name == "region" then args.region
    else if name == "province" then args.province
    else if name == "gender" then args.gender
    else if name == "age_cats" then args.ageCats
    else if name == "degree" then args.degree
    else args.language
  }

  /** The `user_fixed` loop: every flag that was given, and no other key. */
  method PinsFromArgs(args: Args) returns (fixed: Pins)
    ensures forall k :: k in fixed <==> k in FeatureCols && Flag(args, k).Some?
    ensures forall k :: k in fixed && k in FeatureCols ==> fixed[k] == Flag(args, k)
  {
    fixed := map[];
    var i := 0;
    while i < |FeatureCols|
      invariant 0 <= i <= |FeatureCols|
      invariant forall k :: k in fixed <==> k in FeatureCols[..i] && Flag(args, k).Some?
      invariant forall k :: k in fixed && k in FeatureCols ==> fixed[k] == Flag(args, k)
    {
      var k := FeatureCols[i];
      var v := Flag(args, k);
      if v.Some? {
        fixed := fixed[k := v];
      }
      assert FeatureCols[..i + 1] == FeatureCols[..i] + [k];
      i := i + 1;
    }
    assert FeatureCols[..i] == FeatureCols;
  }

  /** Pins taken from the flags never hold `None`, so `build_samples` cannot
      raise on the year: the year is the `--year` flag or 2023, and a
      categorical column is pinned exactly when its flag was given. An
      absent flag means "draw from the prior", never a default code. */
  lemma PinsFromArgsMeaning(args: Args, fixed: Pins)
    requires forall k :: k in fixed <==> k in FeatureCols && Flag(args, k).Some?
    requires forall k :: k in fixed && k in FeatureCols ==> fixed[k] == Flag(args, k)
    ensures YearOf(fixed) == Ok(if args.year.Some? then args.year.value else DefaultYear)
    ensures forall j :: 0 <= j < |CatCols| ==> (Pinned(fixed, CatCols[j]) <==> Flag(args, CatCols[j]).Some?)
    ensures forall j :: 0 <= j < |CatCols| && Pinned(fixed, CatCols[j]) ==> fixed[CatCols[j]] == Flag(args, CatCols[j])
  {
    assert "year" in FeatureCols;
    forall j | 0 <= j < |CatCols|
      ensures CatCols[j] in FeatureCols
    {
      assert FeatureCols == ["year"] + CatCols;
    }
  }

  /** Every row of `proba` has one entry per class. */
  predicate Rectangular(proba: seq<seq<real>>, m: nat)
  {
    forall r :: 0 <= r < |proba| ==> |proba[r]| == m
  }

  /** Each row is a probability distribution over the `m` classes. */
  predicate Stochastic(proba: seq<seq<real>>, m: nat)
  {
    && Rectangular(proba, m)
    && forall r :: 0 <= r < |proba| ==> Sum(proba[r]) == 1.0 && forall c :: 0 <= c < m ==> proba[r][c] >= 0.0
  }

  /** Sum of column `c` over the rows. */
  function ColumnSum(proba: seq<seq<real>>, c: nat): real
    requires forall r :: 0 <= r < |proba| ==> c < |proba[r]|
  {
    if proba == [] then 0.0 else ColumnSum(proba[..|proba| - 1], c) + proba[|proba| - 1][c]
  }

  /** `proba.mean(axis=0)`: each class's probability averaged over the voters. */
  function MeanProba(proba: seq<seq<real>>, m: nat): (means: seq<real>)
    requires |proba| > 0 && Rectangular(proba, m)
    ensures |means| == m
  {
    seq(m, c requires 0 <= c < m => ColumnSum(proba, c) / |proba| as real)
  }

  /** The mean of distributions is a distribution: every class's mean
      probability is non-negative and the means sum to one. */
  lemma MeanIsDistribution(proba: seq<seq<real>>, m: nat)
    requires |proba| > 0 && Stochastic(proba, m)
    ensures forall c :: 0 <= c < m ==> MeanProba(proba, m)[c] >= 0.0
    ensures Sum(MeanProba(proba, m)) == 1.0
  {
    var sums := seq(m, c requires 0 <= c < m => ColumnSum(proba, c));
    forall c | 0 <= c < m
      ensures sums[c] >= 0.0
    {
      ColumnSumNonNegative(proba, m, c);
    }
    var count := |proba| as real;
    ColumnSumsTotal(proba, m);
    RowTotalOfStochastic(proba, m);
    assert Sum(sums) == count;
    SumScaled(sums, count);
    assert MeanProba(proba, m) == seq(|sums|, c requires 0 <= c < |sums| => sums[c] / count);
    assert Sum(MeanProba(proba, m)) == count / count;
    DivSelf(count);
  }

  /** Sum of all entries, row by row. */
  function RowTotal(proba: seq<seq<real>>): real
  {
    if proba == [] then 0.0 else RowTotal(proba[..|proba| - 1]) + Sum(proba[|proba| - 1])
  }

  lemma {:induction false} ColumnSumNonNegative(proba: seq<seq<real>>, m: nat, c: nat)
    requires Stochastic(proba, m) && c < m
    ensures ColumnSum(proba, c) >= 0.0
  {
    if proba != [] {
      ColumnSumNonNegative(proba[..|proba| - 1], m, c);
    }
  }

  lemma {:induction false} RowTotalOfStochastic(proba: seq<seq<real>>, m: nat)
    requires Stochastic(proba, m)
    ensures RowTotal(proba) == |proba| as real
  {
    if proba != [] {
      RowTotalOfStochastic(proba[..|proba| - 1], m);
    }
  }

  /** Adding up the column sums is adding up the row sums. */
  lemma {:induction false} ColumnSumsTotal(proba: seq<seq<real>>, m: nat)
    requires Rectangular(proba, m)
    ensures Sum(seq(m, c requires 0 <= c < m => ColumnSum(proba, c))) == RowTotal(proba)
  {
    var sums := seq(m, c requires 0 <= c < m => ColumnSum(proba, c));
    if proba == [] {
      SumZeros(sums);
    } else {
      var front := proba[..|proba| - 1];
      var last := proba[|proba| - 1];
      var before := seq(m, c requires 0 <= c < m => ColumnSum(front, c));
      ColumnSumsTotal(front, m);
      SumPointwise(before, last);
      assert sums == seq(m, c requires 0 <= c < m => before[c] + last[c]);
    }
  }

  lemma {:induction false} SumZeros(xs: seq<real>)
    requires forall i :: 0 <= i < |xs| ==> xs[i] == 0.0
    ensures Sum(xs) == 0.0
  {
    if xs != [] {
      SumZeros(xs[1..]);
    }
  }

  lemma {:induction false} SumPointwise(xs: seq<real>, ys: seq<real>)
    requires |xs| == |ys|
    ensures Sum(seq(|xs|, i requires 0 <= i < |xs| => xs[i] + ys[i])) == Sum(xs) + Sum(ys)
  {
    var zs := seq(|xs|, i requires 0 <= i < |xs| => xs[i] + ys[i]);
    if xs != [] {
      SumPointwise(xs[1..], ys[1..]);
      assert zs[1..] == seq(|xs| - 1, i requires 0 <= i < |xs| - 1 => xs[1..][i] + ys[1..][i]);
    }
  }

  lemma {:induction false} SumScaled(xs: seq<real>, d: real)
    requires d > 0.0
    ensures Sum(seq(|xs|, i requires 0 <= i < |xs| => xs[i] / d)) == Sum(xs) / d
  {
    var zs := seq(|xs|, i requires 0 <= i < |xs| => xs[i] / d);
    if xs != [] {
      SumScaled(xs[1..], d);
      DivAdd(xs[0], Sum(xs[1..]), d);
      assert zs[1..] == seq(|xs| - 1, i requires 0 <= i < |xs| - 1 => xs[1..][i] / d);
    }
  }

  /** A class code with its mean probability. */
  type Scored = (int, real)

  /** `zip(classes, mean_proba)`: pairs up to the shorter of the two. */
  function Zip(classes: seq<int>, means: seq<real>): (ps: seq<Scored>)
    ensures |ps| == if |classes| <= |means| then |classes| else |means|
    ensures forall i :: 0 <= i < |ps| ==> ps[i] == (classes[i], means[i])
  {
    if classes == [] || means == [] then [] else [(classes[0], means[0])] + Zip(classes[1..], means[1..])
  }

  /** Puts `x` after every pair scored at least as high, before the first
      pair scored lower. */
  function InsertByScore(s: seq<Scored>, x: Scored): seq<Scored>
  {
    if s == [] || s[0].1 < x.1 then [x] + s else [s[0]] + InsertByScore(s[1..], x)
  }

  /** `sorted(pairs, key=lambda x: x[1], reverse=True)`: a stable sort by
      descending score. */
  function Ranked(ps: seq<Scored>): seq<Scored>
  {
    if ps == [] then [] else InsertByScore(Ranked(ps[..|ps| - 1]), ps[|ps| - 1])
  }

  /** Scores never increase along the sequence. */
  predicate NonIncreasing(s: seq<Scored>)
  {
    forall i, j :: 0 <= i < j < |s| ==> s[i].1 >= s[j].1
  }

  /** The pairs scored exactly `p`, in order. */
  function ScoredAt(s: seq<Scored>, p: real): seq<Scored>
  {
    if s == [] then [] else (if s[0].1 == p then [s[0]] else []) + ScoredAt(s[1..], p)
  }

  /** The ranking is sorted by non-increasing score, is a permutation of the
      input, and is stable: pairs with the same score keep their input
      order. These three facts determine the ranking completely. */
  lemma {:induction false} RankedSpec(ps: seq<Scored>)
    ensures NonIncreasing(Ranked(ps))
    ensures multiset(Ranked(ps)) == multiset(ps)
    ensures forall p :: ScoredAt(Ranked(ps), p) == ScoredAt(ps, p)
  {
    if ps != [] {
      var front := ps[..|ps| - 1];
      var x := ps[|ps| - 1];
      assert ps == front + [x];
      RankedSpec(front);
      InsertByScoreSorted(Ranked(front), x);
      forall p
        ensures ScoredAt(Ranked(ps), p) == ScoredAt(ps, p)
      {
        InsertStable(Ranked(front), x, p);
        ScoredAtAppend(front, [x], p);
      }
    }
  }

  /** Inserting keeps the order and adds exactly `x`. */
  lemma InsertByScoreSorted(s: seq<Scored>, x: Scored)
    requires NonIncreasing(s)
    ensures NonIncreasing(InsertByScore(s, x))
    ensures multiset(InsertByScore(s, x)) == multiset(s) + multiset{x}
  {
    InsertKeepsOrder(s, x);
    InsertAddsOne(s, x);
  }

  lemma {:induction false} InsertKeepsOrder(s: seq<Scored>, x: Scored)
    requires NonIncreasing(s)
    ensures NonIncreasing(InsertByScore(s, x))
  {
    var r := InsertByScore(s, x);
    if s == [] {
    } else if s[0].1 < x.1 {
      assert r == [x] + s;
      forall i, j | 0 <= i < j < |r|
        ensures r[i].1 >= r[j].1
      {
        if i == 0 {
          assert r[j] == s[j - 1];
        } else {
          assert r[i] == s[i - 1] && r[j] == s[j - 1];
        }
      }
    } else {
      var rest := InsertByScore(s[1..], x);
      assert r == [s[0]] + rest;
      InsertKeepsOrder(s[1..], x);
      InsertBounded(s[1..], x, s[0].1);
      forall i, j | 0 <= i < j < |r|
        ensures r[i].1 >= r[j].1
      {
        assert r[j] == rest[j - 1];
        if i > 0 {
          assert r[i] == rest[i - 1];
        }
      }
    }
  }

  lemma {:induction false} InsertAddsOne(s: seq<Scored>, x: Scored)
    ensures multiset(InsertByScore(s, x)) == multiset(s) + multiset{x}
  {
    if s != [] && s[0].1 >= x.1 {
      InsertAddsOne(s[1..], x);
      assert s == [s[0]] + s[1..];
    }
  }

  /** Inserting below a bound keeps every score below it. */
  lemma {:induction false} InsertBounded(s: seq<Scored>, x: Scored, b: real)
    requires x.1 <= b && forall i :: 0 <= i < |s| ==> s[i].1 <= b
    ensures forall i :: 0 <= i < |InsertByScore(s, x)| ==> InsertByScore(s, x)[i].1 <= b
  {
    if s != [] && s[0].1 >= x.1 {
      InsertBounded(s[1..], x, b);
    }
  }

  /** Inserting `x` into a ranking puts it after the pairs of its own score. */
  lemma {:induction false} InsertStable(s: seq<Scored>, x: Scored, p: real)
    requires NonIncreasing(s)
    ensures ScoredAt(InsertByScore(s, x), p) == ScoredAt(s, p) + ScoredAt([x], p)
  {
    var tail := if x.1 == p then [x] else [];
    assert ScoredAt([x], p) == tail + ScoredAt([], p);
    if s == [] {
    } else if s[0].1 < x.1 {
      assert InsertByScore(s, x) == [x] + s;
      assert ([x] + s)[0] == x && ([x] + s)[1..] == s;
      if x.1 == p {
        NoneScoredAt(s, p);
      }
    } else {
      var head := if s[0].1 == p then [s[0]] else [];
      var rest := InsertByScore(s[1..], x);
      assert InsertByScore(s, x) == [s[0]] + rest;
      assert ([s[0]] + rest)[0] == s[0] && ([s[0]] + rest)[1..] == rest;
      assert NonIncreasing(s[1..]) by {
        forall i, j | 0 <= i < j < |s[1..]| ensures s[1..][i].1 >= s[1..][j].1 {
          assert s[1..][i] == s[i + 1] && s[1..][j] == s[j + 1];
        }
      }
      calc {
        ScoredAt(InsertByScore(s, x), p);
        head + ScoredAt(rest, p);
        == { InsertStable(s[1..], x, p); }
        head + (ScoredAt(s[1..], p) + ScoredAt([x], p));
        == { assert head + (ScoredAt(s[1..], p) + ScoredAt([x], p)) == (head + ScoredAt(s[1..], p)) + ScoredAt([x], p); }
        ScoredAt(s, p) + ScoredAt([x], p);
      }
    }
  }

  lemma {:induction false} NoneScoredAt(s: seq<Scored>, p: real)
    requires NonIncreasing(s) && s != [] && s[0].1 < p
    ensures ScoredAt(s, p) == []
  {
    if |s| > 1 {
      NoneScoredAt(s[1..], p);
    }
  }

  lemma {:induction false} ScoredAtAppend(s: seq<Scored>, t: seq<Scored>, p: real)
    ensures ScoredAt(s + t, p) == ScoredAt(s, p) + ScoredAt(t, p)
  {
    if s == [] {
      assert s + t == t;
    } else {
      var head := if s[0].1 == p then [s[0]] else [];
      calc {
        ScoredAt(s + t, p);
        == { assert (s + t)[0] == s[0]; assert (s + t)[1..] == s[1..] + t; }
        head + ScoredAt(s[1..] + t, p);
        == { ScoredAtAppend(s[1..], t, p); }
        head + (ScoredAt(s[1..], p) + ScoredAt(t, p));
        == { assert head + (ScoredAt(s[1..], p) + ScoredAt(t, p)) == (head + ScoredAt(s[1..], p)) + ScoredAt(t, p); }
        ScoredAt(s, p) + ScoredAt(t, p);
      }
    }
  }

  /** The ranking lists each class once per occurrence in `classes`, with
      its own mean, when there is one mean per class. */
  lemma RankedClasses(classes: seq<int>, means: seq<real>)
    requires |classes| == |means|
    ensures |Ranked(Zip(classes, means))| == |classes|
    ensures multiset(Ranked(Zip(classes, means))) == multiset(Zip(classes, means))
    ensures forall q :: q in Ranked(Zip(classes, means)) ==>
      exists i :: 0 <= i < |classes| && q == (classes[i], means[i])
  {
    var ps := Zip(classes, means);
    RankedSpec(ps);
    assert |Ranked(ps)| == |multiset(Ranked(ps))| == |multiset(ps)| == |ps|;
    forall q | q in Ranked(ps)
      ensures exists i :: 0 <= i < |classes| && q == (classes[i], means[i])
    {
      assert q in multiset(Ranked(ps));
      assert q in ps;
    }
  }

  /** `PARTY_LABELS`. */
  const PartyLabels: map<int, string> := map[1 := "LPC", 2 := "CPC", 3 := "NDP", 6 := "GPC", 10 := "Other"]

  /** The opening of the label of a code that has no party name. */
  const UnknownPrefix: string := "Unknown ("

  /** `PARTY_LABELS.get(cls, f"Unknown ({cls})")`. */
  function PartyLabel(cls: int): string
  {
    if cls in PartyLabels then PartyLabels[cls] else UnknownPrefix + Show(cls) + ")"
  }

  /** The text between a prefix and a suffix. */
  lemma Middle(p: string, m: string, q: string)
    ensures (p + m + q)[|p|..|p + m + q| - |q|] == m
  {
  }

  /** A class code (an `int64`, as `classes_` holds it) with no party name
      is shown with its own code, which reads back. */
  lemma {:induction false} UnknownLabelNamesCode(cls: int)
    requires cls !in PartyLabels && IsInt64(cls)
    ensures |PartyLabel(cls)| > |UnknownPrefix| + 1
    ensures PartyLabel(cls)[..|UnknownPrefix|] == UnknownPrefix
    ensures PartyLabel(cls)[|PartyLabel(cls)| - 1] == ')'
    ensures ParseInt(PartyLabel(cls)[|UnknownPrefix|..|PartyLabel(cls)| - 1]) == Some(cls)
  {
    var shown := Show(cls);
    var shownLabel := UnknownPrefix + shown + ")";
    assert PartyLabel(cls) == shownLabel;
    Middle(UnknownPrefix, shown, ")");
    assert shownLabel[|UnknownPrefix|..|shownLabel| - 1] == shown;
    ParseShowInt64(cls);
  }

  /** Different classes get different labels, so no two lines of a report
      share a party name. */
  lemma PartyLabelInjective(a: int, b: int)
    requires PartyLabel(a) == PartyLabel(b)
    ensures a == b
  {
    if a !in PartyLabels && b !in PartyLabels {
      Middle(UnknownPrefix, Show(a), ")");
      Middle(UnknownPrefix, Show(b), ")");
      ShowInjective(a, b);
    }
  }

  /** The simulated votes: voter `i`'s vote is `choice(classes, p=proba[i])`
      fed uniform number `i`, the first rejected row's error ends it. */
  function Votes(classes: seq<int>, proba: seq<seq<real>>, draws: Stream): Result<seq<int>, ChoiceError>
    requires Uniform(draws)
  {
    if proba == [] then Ok([])
    else match Votes(classes, proba[..|proba| - 1], draws)
      case Err(e) => Err(e)
      case Ok(vs) =>
        match Draw(classes, proba[|proba| - 1], draws(|proba| - 1))
        case Err(e) => Err(e)
        case Ok(v) => Ok(vs + [v])
  }

  /** The list comprehension of simulated votes, over a generator seeded
      afresh with the sampler's seed: `draws` is the stream `build_samples`
      was given. */
  method SimulateVotes(classes: seq<int>, proba: seq<seq<real>>, draws: Stream) returns (r: Result<seq<int>, ChoiceError>)
    requires Uniform(draws)
    ensures r == Votes(classes, proba, draws)
  {
    var rng := new Generator(draws);
    var votes: seq<int> := [];
    var i := 0;
    while i < |proba|
      invariant 0 <= i <= |proba|
      invariant rng.draws == draws && rng.position == i
      invariant Votes(classes, proba[..i], draws) == Ok(votes)
    {
      assert proba[..i + 1][..i] == proba[..i];
      var v := rng.Choice(classes, proba[i]);
      if v.Err? {
        VotesPrefixErr(classes, proba, draws, i + 1);
        return Err(v.error);
      }
      votes := votes + [v.value];
      i := i + 1;
    }
    assert proba[..i] == proba;
    r := Ok(votes);
  }

  /** Once a prefix of the rows raises, the whole list raises the same error. */
  lemma {:induction false} VotesPrefixErr(classes: seq<int>, proba: seq<seq<real>>, draws: Stream, i: nat)
    requires Uniform(draws) && i <= |proba| && Votes(classes, proba[..i], draws).Err?
    ensures Votes(classes, proba, draws) == Votes(classes, proba[..i], draws)
    decreases |proba| - i
  {
    if i < |proba| {
      assert proba[..i + 1][..i] == proba[..i];
      VotesPrefixErr(classes, proba, draws, i + 1);
    } else {
      assert proba[..i] == proba;
    }
  }

  /** The simulation raises exactly when some voter's probabilities are
      rejected by `choice`; otherwise there is one vote per voter, voter
      `i`'s vote is the class the inverse CDF of its probabilities gives
      for uniform number `i`, and it is a class predicted with positive
      probability. */
  lemma {:induction false} VotesSpec(classes: seq<int>, proba: seq<seq<real>>, draws: Stream)
    requires Uniform(draws)
    ensures Votes(classes, proba, draws).Err? <==> exists i :: 0 <= i < |proba| && CheckChoice(classes, proba[i]).Some?
    ensures Votes(classes, proba, draws).Ok? ==>
      var votes := Votes(classes, proba, draws).value;
      && |votes| == |proba|
      && forall i :: 0 <= i < |proba| ==>
           && Pick(proba[i], draws(i)) < |classes|
           && votes[i] == classes[Pick(proba[i], draws(i))]
           && proba[i][Pick(proba[i], draws(i))] > 0.0
  {
    if proba != [] {
      var front := proba[..|proba| - 1];
      VotesSpec(classes, front, draws);
      var last := |proba| - 1;
      assert forall i :: 0 <= i < last ==> front[i] == proba[i];
      if CheckChoice(classes, proba[last]).None? {
        PickInRange(proba[last], draws(last));
      }
    }
  }

  /** Every simulated vote is one of the classes, as `choice(classes, …)` promises. */
  lemma VotesInClasses(classes: seq<int>, proba: seq<seq<real>>, draws: Stream)
    requires Uniform(draws) && Votes(classes, proba, draws).Ok?
    ensures forall v :: v in Votes(classes, proba, draws).value ==> v in classes
  {
    VotesSpec(classes, proba, draws);
  }

  /** With well-formed probabilities for every voter, the simulation never
      raises and draws one vote per voter. */
  lemma VotesOfStochastic(classes: seq<int>, proba: seq<seq<real>>, draws: Stream)
    requires Uniform(draws) && |classes| > 0 && Stochastic(proba, |classes|)
    ensures Votes(classes, proba, draws).Ok?
    ensures |Votes(classes, proba, draws).value| == |proba|
  {
    VotesSpec(classes, proba, draws);
  }

  /** One line of the count report: a class, printed as its `PartyLabel`,
      and its number of votes. */
  type CountLine = (int, nat)

  /** The counts loop: every class, in `classes` order, with
      `vote_counts.get(cls, 0)` — zero for a class never drawn. */
  method CountLines(classes: seq<int>, votes: seq<int>) returns (lines: seq<CountLine>)
    ensures |lines| == |classes|
    ensures forall j :: 0 <= j < |classes| ==> lines[j] == (classes[j], Counts(classes, votes)[j])
    ensures forall j :: 0 <= j < |classes| ==> lines[j].1 == multiset(votes)[classes[j]]
  {
    var counts := Counts(classes, votes);
    lines := [];
    var j := 0;
    while j < |classes|
      invariant 0 <= j <= |classes|
      invariant |lines| == j
      invariant forall k :: 0 <= k < j ==> lines[k] == (classes[k], counts[k])
      invariant forall k :: 0 <= k < j ==> lines[k].1 == multiset(votes)[classes[k]]
    {
      CountsAt(classes, votes, j);
      lines := lines + [(classes[j], counts[j])];
      j := j + 1;
    }
  }

  /** When every vote is one of the (distinct) classes, the reported counts
      add up to the number of votes, that is to the number of voters. */
  lemma CountsAddUp(classes: seq<int>, votes: seq<int>)
    requires Distinct(classes) && forall v :: v in votes ==> v in classes
    ensures NatSum(Counts(classes, votes)) == |votes|
  {
    CountsCover(classes, votes);
  }

  /** `100.0 * count / len(sim_votes)`. */
  function Percent(count: nat, total: nat): real
    requires total > 0
  {
    100.0 * count as real / total as real
  }

  /** Each count as a percentage of `total`. */
  function Percentages(counts: seq<nat>, total: nat): (pcts: seq<real>)
    requires total > 0
    ensures |pcts| == |counts|
  {
    if counts == [] then [] else [Percent(counts[0], total)] + Percentages(counts[1..], total)
  }

  lemma {:induction false} PercentagesAt(counts: seq<nat>, total: nat, j: nat)
    requires total > 0 && j < |counts|
    ensures Percentages(counts, total)[j] == Percent(counts[j], total)
  {
    if j > 0 {
      PercentagesAt(counts[1..], total, j - 1);
    }
  }

  /** The percentages of some counts add up to the percentage of their total. */
  lemma {:induction false} PercentagesSum(counts: seq<nat>, total: nat)
    requires total > 0
    ensures Sum(Percentages(counts, total)) == Percent(NatSum(counts), total)
  {
    if counts != [] {
      PercentagesSum(counts[1..], total);
      var t := total as real;
      var a := counts[0] as real;
      var b := NatSum(counts[1..]) as real;
      DivAdd(100.0 * a, 100.0 * b, t);
    }
  }

  /** Why the percentages loop stops: `0.0 / 0` when there are no votes. */
  datatype PercentError = ZeroDivision

  /** One line of the percentage report: a class, printed as its
      `PartyLabel`, and its share of the votes. */
  type PercentLine = (int, real)

  /** The percentages loop: `ZeroDivisionError` on its first class when no
      vote was drawn, otherwise each class's share of the votes. */
  method PercentLines(classes: seq<int>, votes: seq<int>) returns (r: Result<seq<PercentLine>, PercentError>)
    ensures r.Err? <==> |classes| > 0 && |votes| == 0
    ensures r.Ok? && |votes| > 0 ==>
      && |r.value| == |classes|
      && (forall j :: 0 <= j < |classes| ==>
           r.value[j] == (classes[j], Percentages(Counts(classes, votes), |votes|)[j]))
      && (forall j :: 0 <= j < |classes| ==> r.value[j].1 == Percent(multiset(votes)[classes[j]], |votes|))
    ensures r.Ok? && |votes| == 0 ==> r.value == []
  {
    if |classes| > 0 && |votes| == 0 {
      return Err(ZeroDivision);
    }
    if |votes| == 0 {
      return Ok([]);
    }
    var counts := Counts(classes, votes);
    var lines: seq<PercentLine> := [];
    var j := 0;
    while j < |classes|
      invariant 0 <= j <= |classes|
      invariant |lines| == j
      invariant forall k :: 0 <= k < j ==> lines[k] == (classes[k], Percentages(counts, |votes|)[k])
      invariant forall k :: 0 <= k < j ==> lines[k].1 == Percent(multiset(votes)[classes[k]], |votes|)
    {
      PercentagesAt(counts, |votes|, j);
      CountsAt(classes, votes, j);
      lines := lines + [(classes[j], Percent(counts[j], |votes|))];
      j := j + 1;
    }
    r := Ok(lines);
  }

  /** With every vote among the distinct classes, the percentages add up
      to one hundred. */
  lemma PercentagesAddUp(classes: seq<int>, votes: seq<int>)
    requires |votes| > 0 && Distinct(classes) && forall v :: v in votes ==> v in classes
    ensures Sum(Percentages(Counts(classes, votes), |votes|)) == 100.0
  {
    var counts := Counts(classes, votes);
    CountsCover(classes, votes);
    PercentagesSum(counts, |votes|);
    PercentOfAll(|votes|);
  }

  lemma PercentOfAll(n: nat)
    requires n > 0
    ensures Percent(n, n) == 100.0
  {
    DivSelf(n as real);
    ScaleDiv(100.0, n as real, n as real);
  }
}
