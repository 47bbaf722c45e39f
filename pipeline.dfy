/** How the three scripts fit together: the priors the trainer saves are
    exactly what the sampler looks up, so sampling from a trained bundle
    never raises and only produces codes seen in training; and the vote
    tally over the trained classes accounts for every synthetic voter. */
module Pipeline {
  import opened Common
  import Trainer
  import opened Sampling
  import opened Simulation

  /** The trainer and the sampler name the same feature and categorical
      columns, in the same order. */
  lemma SameColumns()
    ensures Trainer.FeatureCols == Sampling.FeatureCols
    ensures Trainer.CatCols == Sampling.CatCols
  {
  }

  /** What the trainer's priors loop produces from the training rows. */
  ghost predicate TrainedPriors(train: seq<Row>, priors: map<string, Series>)
    requires Trainer.HasColumns(train, Trainer.CatCols)
  {
    && priors.Keys == (set c | c in Trainer.CatCols)
    && forall c :: c in Trainer.CatCols ==> priors[c] == Trainer.ValueCounts(Trainer.Column(train, c))
  }

  /** A prior built from at least one training row is accepted by `choice`. */
  lemma TrainedPriorAccepted(codes: seq<int>)
    requires |codes| > 0
    ensures CheckChoice(Trainer.ValueCounts(codes).index, Trainer.ValueCounts(codes).values) == None
  {
    Trainer.ValueCountsSupport(codes);
    Trainer.ValueCountsSumToOne(codes);
    assert codes[0] in Trainer.ValueCounts(codes).index;
  }

  /** With at least one training row, every prior of the bundle is one
      `choice` accepts and none is missing: `build_samples` on the bundle's
      priors raises only for a year pinned to `None`, never a `KeyError` or
      `ValueError`. */
  lemma TrainedPriorsAreSound(train: seq<Row>, priors: map<string, Series>, fixed: Pins)
    requires |train| > 0 && Trainer.HasColumns(train, Trainer.CatCols)
    requires TrainedPriors(train, priors)
    ensures Sound(fixed, priors) <==> YearOf(fixed).Ok?
  {
    forall j | 0 <= j < |CatCols|
      ensures ColumnError(fixed, priors, CatCols[j]) == None
    {
      var col := CatCols[j];
      assert col in Trainer.CatCols;
      TrainedPriorAccepted(Trainer.Column(train, col));
    }
  }

  /** Sampling from a trained bundle: for any positive `n` and pins without
      a `None` year the frame is built, and every drawn code is a code seen
      in that column of the training rows. */
  lemma SampledCodesSeenInTraining(train: seq<Row>, priors: map<string, Series>, fixed: Pins,
                                    n: int, draws: Stream, i: nat, j: nat)
    requires |train| > 0 && Trainer.HasColumns(train, Trainer.CatCols)
    requires TrainedPriors(train, priors)
    requires Uniform(draws) && YearOf(fixed).Ok?
    ensures Samples(fixed, priors, n, draws).Ok?
    ensures i < |Samples(fixed, priors, n, draws).value.rows| && j < |CatCols| && !Pinned(fixed, CatCols[j]) ==>
      var row := Samples(fixed, priors, n, draws).value.rows[i];
      CatCols[j] in row && row[CatCols[j]] in Trainer.Column(train, CatCols[j])
  {
    TrainedPriorsAreSound(train, priors, fixed);
    SamplesOutcome(fixed, priors, n, draws);
    if i < |Samples(fixed, priors, n, draws).value.rows| && j < |CatCols| && !Pinned(fixed, CatCols[j]) {
      var col := CatCols[j];
      SampledRow(fixed, priors, n, draws, i);
      assert col in Trainer.CatCols;
      Trainer.ValueCountsSupport(Trainer.Column(train, col));
    }
  }

  /** The tally over the classes the classifier learned: when each voter's
      predicted probabilities form a distribution over those classes, every
      voter casts a vote, the counts add up to the number of voters and the
      percentages to one hundred. */
  lemma TallyAccountsForEveryVoter(ys: seq<int>, proba: seq<seq<real>>, draws: Stream)
    requires Uniform(draws) && |ys| > 0 && |proba| > 0
    requires Stochastic(proba, |Trainer.SortedLabels(ys)|)
    ensures Votes(Trainer.SortedLabels(ys), proba, draws).Ok?
    ensures var votes := Votes(Trainer.SortedLabels(ys), proba, draws).value;
      && |votes| == |proba|
      && NatSum(Counts(Trainer.SortedLabels(ys), votes)) == |proba|
      && Sum(Percentages(Counts(Trainer.SortedLabels(ys), votes), |votes|)) == 100.0
  {
    var classes := Trainer.SortedLabels(ys);
    assert ys[0] in classes;
    VotesOfStochastic(classes, proba, draws);
    var votes := Votes(classes, proba, draws).value;
    VotesInClasses(classes, proba, draws);
    CountsAddUp(classes, votes);
    PercentagesAddUp(classes, votes);
  }
}
