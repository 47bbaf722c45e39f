# Voting-intent pipeline: a verified model

This project models the three stages of a small batch pipeline that
estimates party vote shares from a polling database:

- **Row refiner** (`refined_data/csv_refiner.py`, module `Refiner`). It
  streams the raw survey records and drops those dated 1999 or earlier and
  those with a blank field among the nine output fields. It writes the rest,
  unchanged, projected onto those fields, after a header line.
- **Trainer** (`model/model.py`, module `Trainer`). It splits the refined
  rows by year: eight training years and the held-out year 2023. It then
  builds the bundle's per-column empirical priors (count over total, from
  the training rows only) and records the classes the classifier learns.
- **Sampler** (`model/sampling.py`, modules `Sampling` and `Simulation`).
  - `build_samples` builds `n` synthetic voters. Each categorical column is
    either pinned by the user or drawn from its prior with numpy's weighted
    `choice`. The year defaults to 2023.
  - `main` turns the command-line flags into pins, ranks the classes by mean
    predicted probability and looks up party labels. It simulates one vote
    per voter with a generator re-seeded with the same seed, then reports
    counts and percentages.

Two more modules support these:

- `Decimal` models Python's `str.strip()`, `int(text)` and `str(n)`.
- `Pipeline` proves that the stages fit together. The trainer's priors are
  exactly what `build_samples` looks up, so sampling from a trained bundle
  cannot raise for a missing or malformed prior and draws only codes seen in
  training. The tally accounts for every voter.

The random generator is a class `Sampling.Generator` over an abstract stream
of uniforms in [0, 1). Each accepted `choice` consumes exactly one uniform,
and the index is picked by inverse CDF (`searchsorted(side="right")`). The
seed is therefore a stream given as a parameter, and determinism,
consumption order and support membership are all provable.

Where the code and the design description differ, the model follows the
code:

- No vote-intention exclusion list and no "8"→"2" relabel exist.
- `n = 0` does not give a report of zero counts. `build_samples` returns an
  empty frame, and the run then stops at `model/sampling.py:78`, where
  scikit-learn's `predict_proba` refuses a frame with no rows.
  `Simulation.PercentLines` models lines 102-105 on their own: given no
  votes, they would raise `ZeroDivisionError`.
- The simulation reuses the sampler's seed.

## Model

| member | source | states |
|---|---|---|
| Refiner.Cell | refined_data/csv_refiner.py:27 | `row[field]` yields the cell exactly when the column exists and the line has that cell; otherwise `KeyError` for a missing column or a failure on a missing (`None`) cell |
| Refiner.AnyBlank | refined_data/csv_refiner.py:30 | `any(row[f].strip() == "" for f in FIELDS)` evaluated left to right: it stops at the first blank cell and raises at the first missing cell met before one. It has no contract of its own; `Refiner.AnyBlankSpec` and `Refiner.AnyBlankStops` state its meaning |
| Refiner.AnyBlankSpec | refined_data/csv_refiner.py:30 | the `any(...)` test is false iff all given fields are present and non-blank after `strip()`; true only when some present field is blank; raises only at a missing cell |
| Refiner.AnyBlankStops | refined_data/csv_refiner.py:30 | `any(...)` short-circuits: the first field, in `FIELDS` order, that is missing or blank decides. If it is blank the result is true; if it is missing, that cell's error is raised. Unless the result is false, such a field exists |
| Refiner.Decide | refined_data/csv_refiner.py:27-31 | the two tests of the loop body in source order: `int(row["year"])` first, then the blank test. It has no contract of its own; `Refiner.DecideSpec` and `Refiner.DecideStops` state its meaning |
| Refiner.DecideSpec | refined_data/csv_refiner.py:26-31 | a record is kept iff its year parses to more than 1999 and all nine fields are present and non-blank; a year ≤ 1999 skips it whatever the other cells hold; a missing, blank or non-integer year aborts the run (the year is parsed before the blank test) |
| Refiner.DecideStops | refined_data/csv_refiner.py:27-31 | for a year after 1999, the first missing-or-blank field in `FIELDS` order decides: a blank one skips the record, a missing one aborts with that field's error |
| Refiner.KeptHasCells | refined_data/csv_refiner.py:30-33 | a kept record has a cell for every output field |
| Refiner.Project | refined_data/csv_refiner.py:33 | the written line has the nine fields in the order of `FIELDS`, each cell copied unchanged (not trimmed) |
| Refiner.Judge | refined_data/csv_refiner.py:26-33 | what one loop turn does with a record: write its projection, `continue`, or raise. It has no contract of its own; `Refiner.JudgeSpec` and `Refiner.JudgeClean` state its meaning |
| Refiner.JudgeSpec | refined_data/csv_refiner.py:26-33 | the loop body writes exactly the records that pass both tests, as their unchanged projection; skips years ≤ 1999; raises on an unreadable year; a record is skipped exactly when its year parses and either is ≤ 1999 or its first missing-or-blank field is present (hence blank) |
| Refiner.Refined | refined_data/csv_refiner.py:26-33 | the lines the loop writes after the header, and the error that ends it. It has no contract of its own; `Refiner.RefineFile`, `Refiner.RefinedSplit`, `Refiner.RefinedClean` and `Refiner.RefineIdempotent` state its meaning |
| Refiner.RefineFile | refined_data/csv_refiner.py:24-33 | the header is written first, then the projections of the kept records in input order, up to the first record that raises; the error is returned with the lines already written |
| Refiner.RefinedStep | refined_data/csv_refiner.py:26-33 | one loop turn extends, leaves or ends the output of the records before it |
| Refiner.RefinedSplit | refined_data/csv_refiner.py:26-33 | no cross-row state: refining `a + b` is refining `a`, then, unless `a` raised, refining `b` and appending |
| Refiner.JudgeClean | refined_data/csv_refiner.py:27-33 | every written line has nine cells, a year `int()` reads as > 1999, and no blank cell |
| Refiner.RefinedClean | refined_data/csv_refiner.py:26-33 | every written data line is clean, and no more lines are written than read |
| Refiner.HeaderOnce | refined_data/csv_refiner.py:24 | no data line equals the header, so the header appears exactly once |
| Refiner.Reread | refined_data/csv_refiner.py:21-22 | reading a written line back under the `FIELDS` header gives each field its cell |
| Refiner.RereadKept | refined_data/csv_refiner.py:26-33 | a clean line read back is written again, unchanged |
| Refiner.RefineIdempotent | refined_data/csv_refiner.py:26-33 | refining the refiner's own output writes the same lines and raises nothing |
| Decimal.Strip | refined_data/csv_refiner.py:30 | `s.strip()` is a slice of `s` with only whitespace before and after it, and no whitespace at either of its own ends |
| Decimal.StripEmptyIff | refined_data/csv_refiner.py:30 | `s.strip() == ""` iff every character of `s` is whitespace |
| Decimal.IntStrip | refined_data/csv_refiner.py:27 | the text `int()` reads its digits from is a slice of the input with only `int()`'s own whitespace around it, none at its ends. That whitespace is every non-ASCII space plus tab, LF, VT, FF, CR and blank, but not U+001C to U+001F |
| Decimal.ParseInt | refined_data/csv_refiner.py:27 | `int()` of blank text raises. The body also refuses more than 4300 digits, as CPython limits integer-string conversion; `Decimal.ParseShow` states that limit |
| Decimal.ParseIntRefusesSeparators | refined_data/csv_refiner.py:27 | `int()` raises on text holding any of U+001C to U+001F, even at an end, where `strip()` would remove it. So a year cell `"\x1c2005"` aborts the run |
| Decimal.Show | model/sampling.py:86 | `str(n)` is non-empty, starts with `-` exactly when `n` is negative, and is decimal digits after that |
| Decimal.ParseShow | model/sampling.py:86 | `int(str(n)) == n` whenever `str(n)` has at most 4300 digits; longer text is refused |
| Decimal.ParseShowInt64 | model/sampling.py:86 | every 64-bit integer has at most 19 digits, so `int(str(n)) == n` for it |
| Decimal.ShowInjective | model/sampling.py:86 | distinct integers render as distinct text |
| Trainer.WhereYearIn | model/model.py:50-51 | `df[df["year"].isin(years)]` keeps exactly the rows whose year is in `years`, no more rows than the input |
| Trainer.WhereYearInCounts | model/model.py:50-51 | the mask keeps each row whose year is in `years` as often as it occurs, and drops every other row |
| Trainer.WhereYearInAppend | model/model.py:50-51 | the mask keeps row order: filtering `a + b` is filtering `a`, then `b` |
| Trainer.Select | model/model.py:53-56 | `frame[cols]` has the columns `cols` in order, one row per input row, each holding exactly those columns' codes |
| Trainer.Column | model/model.py:53-57 | a column's codes, row by row |
| Trainer.Partition | model/model.py:50-57 | training rows are exactly those of 2014–2016 and 2018–2022, test rows exactly those of 2023; each half is the year mask of the input; `X_train`/`X_test` are `frame[X.columns]` of their half and `y_train`/`y_test` its `vote_intention` column, so features and labels line up row by row |
| Trainer.PartitionDisjoint | model/model.py:50-51 | no row is in both halves; a row of any other year (2017, say) is in neither |
| Trainer.Uniques | model/model.py:69 | the distinct codes of a column, each once, exactly those that occur |
| Trainer.ValueCounts | model/model.py:69 | `value_counts(normalize=True)` has one share per code, and is empty exactly when the column is |
| Trainer.ValueCountsSupport | model/model.py:69 | the prior's support is exactly the set of codes seen, each listed once, with share count/total, and every share positive |
| Trainer.ValueCountsSumToOne | model/model.py:69 | the shares of a non-empty column's prior sum to one |
| Trainer.BuildPriors | model/model.py:67-69 | the priors loop fills exactly the six categorical columns, each with the value counts of the training rows' codes |
| Trainer.SortedLabels | model/model.py:54-64 | the classes the classifier learns are the distinct training labels, strictly increasing |
| Trainer.Train | model/model.py:50-70 | `model.fit` fails exactly when the training half is empty or has a single label; otherwise the bundle's classes (at least two) and priors come from the training half of the partition alone, and the priors' keys are the six categorical columns |
| Sampling.CheckChoice | model/sampling.py:22 | `choice` accepts its arguments iff the population is non-empty, one probability per value, none negative, and they sum to one |
| Sampling.Pick | model/sampling.py:22 | `searchsorted(side="right")` on the running sums returns an index from 0 to the number of weights |
| Sampling.PickInRange | model/sampling.py:22 | a uniform in [0, total) picks an index of the weights, never one of zero weight |
| Sampling.PickInterval | model/sampling.py:22 | index `i` is picked iff the uniform falls in `[Sum(p[..i]), Sum(p[..i+1]))` (inverse CDF) |
| Sampling.Draw | model/sampling.py:22 | `choice` raises iff its arguments are rejected, with the first failing check; otherwise it returns a value listed with positive probability |
| Sampling.Generator.constructor | model/sampling.py:25 | a fresh generator starts at the beginning of its seed's stream |
| Sampling.Generator.Choice | model/sampling.py:22 | one `choice` call: the result of `Draw` on the next uniform, which is consumed only when the arguments are accepted |
| Sampling.SampleFromPrior | model/sampling.py:19-22 | draws from the prior's index weighted by its shares |
| Sampling.YearOf | model/sampling.py:30 | the year is the pinned one, 2023 when none is pinned; a year pinned to `None` raises |
| Sampling.SampleColumn | model/sampling.py:32-36 | a pinned column copies the pinned code and draws nothing; an unpinned column with no prior raises `KeyError`; otherwise one draw from the prior |
| Sampling.SampleVoter | model/sampling.py:29-38 | one voter's row, using exactly one uniform per unpinned column; any error is the first error of the whole call |
| Sampling.BuildSamples | model/sampling.py:24-40 | the result equals `Samples`: an empty frame with the seven columns when `n <= 0`; otherwise the first error or `n` rows in which voter `i`'s unpinned columns use uniforms `i*K` onwards, in `CAT_COLS` order |
| Sampling.Samples | model/sampling.py:24-40 | `build_samples` raises iff `n > 0` and some column's first error exists; otherwise the frame has columns `FEATURE_COLS` and `max(n, 0)` rows |
| Sampling.SoundIff | model/sampling.py:30-36 | nothing raises iff the year is not `None` and every unpinned column has a prior `choice` accepts |
| Sampling.SamplesOutcome | model/sampling.py:28-40 | `build_samples` raises iff `n > 0` and the pins or priors are unsound; a year pinned to `None` raises `TypeError`; `n <= 0` gives the empty frame with `FEATURE_COLS` |
| Sampling.MissingPriorRaises | model/sampling.py:36 | the first unpinned column with no prior raises `KeyError` for that column |
| Sampling.RowUpToFacts | model/sampling.py:29-36 | a row under construction holds the year and exactly the columns filled so far, each with its own cell |
| Sampling.CellFacts | model/sampling.py:33-36 | a pinned cell is the pinned code; an unpinned one is the code its prior's inverse CDF gives for that voter's uniform, with a positive share |
| Sampling.SampledRow | model/sampling.py:28-40 | the frame has columns `FEATURE_COLS` and `n` rows; every row has exactly the seven columns, the pinned year or 2023, every pinned code verbatim, and in every other column a code from its prior's support with positive share |
| Sampling.SamplesUseDrawPrefix | model/sampling.py:25-36 | streams that agree on the first `n*K` uniforms give the same frame: the table is a function of pins, priors, `n` and seed |
| Sampling.FullyPinned | model/sampling.py:33-34 | with every categorical column pinned, the frame is built and does not depend on the priors or the seed |
| Simulation.PinsFromArgs | model/sampling.py:66-70 | `user_fixed` holds exactly the feature flags that were given, with their values |
| Simulation.PinsFromArgsMeaning | model/sampling.py:66-70 | pins from flags make the year the `--year` flag or 2023, and pin a categorical column exactly when its flag was given (an absent flag means "draw", never a default code) |
| Simulation.Flag | model/sampling.py:68 | `getattr(args, k)` for a feature flag name. It has no contract of its own; `Simulation.PinsFromArgs` states what the loop makes of it |
| Simulation.MeanProba | model/sampling.py:81 | `proba.mean(axis=0)` has one mean per class column |
| Simulation.MeanIsDistribution | model/sampling.py:81 | the mean of per-voter distributions is a distribution: non-negative, summing to one |
| Simulation.Zip | model/sampling.py:82 | `zip` pairs class `i` with mean `i`, up to the shorter input |
| Simulation.Ranked | model/sampling.py:82 | `sorted(..., key=score, reverse=True)` as insertion of each pair after every pair scored at least as high. It has no contract of its own; `Simulation.RankedSpec` states its meaning |
| Simulation.RankedSpec | model/sampling.py:82 | the ranking has non-increasing mean, is a permutation of its input, and keeps tied classes in input order (stable `sorted(..., reverse=True)`) |
| Simulation.RankedClasses | model/sampling.py:82 | the ranking lists each class with its own mean, as often as in `classes` |
| Simulation.PartyLabel | model/sampling.py:86 | `PARTY_LABELS.get(cls, f"Unknown ({cls})")`. It has no contract of its own; `Simulation.UnknownLabelNamesCode` and `Simulation.PartyLabelInjective` state its meaning |
| Simulation.UnknownLabelNamesCode | model/sampling.py:86 | a 64-bit class code missing from `PARTY_LABELS` is shown as `Unknown (<code>)`, whose middle reads back as the code |
| Simulation.PartyLabelInjective | model/sampling.py:86 | different classes get different labels |
| Simulation.SimulateVotes | model/sampling.py:89-92 | the simulated votes equal `Votes`: voter `i` uses uniform `i` of a generator re-seeded with the same seed, and the first rejected row raises |
| Simulation.Votes | model/sampling.py:92 | the list comprehension of `choice` calls, voter by voter. It has no contract of its own; `Simulation.VotesSpec` states its meaning and `Simulation.SimulateVotes` computes it with the generator |
| Simulation.VotesSpec | model/sampling.py:92 | the simulation raises iff some voter's probabilities are rejected; otherwise one vote per voter, given by the inverse CDF and predicted with positive probability |
| Simulation.VotesInClasses | model/sampling.py:92 | every simulated vote is one of the classes |
| Simulation.VotesOfStochastic | model/sampling.py:92 | with valid probabilities for every voter, the simulation never raises and gives one vote per voter |
| Simulation.CountLines | model/sampling.py:94-99 | one line per class in `classes` order, with that class's number of votes (0 when never drawn) |
| Simulation.CountsAddUp | model/sampling.py:94-99 | when every vote is one of the distinct classes, the counts sum to the number of votes |
| Simulation.Percentages | model/sampling.py:104 | one percentage per class count |
| Simulation.PercentagesSum | model/sampling.py:104 | percentages add up to the percentage of the total count |
| Simulation.PercentLines | model/sampling.py:102-105 | `ZeroDivisionError` iff there are classes and no votes; otherwise each class's share `100 * count / len(sim_votes)`, in `classes` order |
| Simulation.PercentagesAddUp | model/sampling.py:102-105 | with every vote among the distinct classes, the percentages sum to 100 |
| Common.CountsAt | model/sampling.py:94-99 | entry `j` of the counts is the number of votes equal to `classes[j]` (`value_counts().get(cls, 0)`) |
| Common.CountsCover | model/sampling.py:94-99 | counting over distinct codes that cover every vote counts each vote once |
| Pipeline.SameColumns | model/model.py:20-30 | the trainer and the sampler use the same feature and categorical columns in the same order |
| Pipeline.TrainedPriorAccepted | model/model.py:69 | a prior built from at least one training row is accepted by `choice` |
| Pipeline.TrainedPriorsAreSound | model/model.py:67-70 | with training rows, `build_samples` on the bundle's priors raises only for a year pinned to `None`: never `KeyError`, never `ValueError` |
| Pipeline.SampledCodesSeenInTraining | model/model.py:67-70 | sampling from a trained bundle succeeds, and every drawn code was seen in that column of the training rows |
| Pipeline.TallyAccountsForEveryVoter | model/sampling.py:92-105 | over the learned classes with valid probabilities, every voter votes, counts sum to the number of voters and percentages to 100 |

## Left out

- Reading and writing files: CSV quoting and dialects, `pd.read_csv`, `joblib` load/dump, `argparse` and every `print`. Records and frames are inputs and outputs of the members instead.
- `int()` on non-ASCII decimal digits. Only ASCII digits, a sign and single underscores are modelled. The whitespace is modelled as CPython skips it: non-ASCII whitespace, and the ASCII characters tab, LF, VT, FF, CR and blank.
- Floating point. Probabilities, shares, means and percentages are exact reals, and the `:.3f`/`:.1f` formatting is not modelled.
- Sampling.CheckChoice: numpy accepts probabilities whose sum is within a small tolerance of one and renormalises them. The model demands an exact sum of one.
- numpy's PRNG algorithm and the mapping from seed to stream are not modelled. A seed is an abstract stream of uniforms in [0, 1). Nothing is claimed about distributions.
- scikit-learn is not modelled: `OneHotEncoder`, `StandardScaler`, `LogisticRegression.fit`, `predict_proba`, `predict` and the metrics. The predicted probabilities are an input. Of the fitted model, only `classes_` (the sorted distinct training labels) is modelled.
- Decimal.Show: has no 4300-digit limit, whereas CPython's `str()` raises past it. It renders only class codes, which `classes_` holds as 64-bit integers (`Decimal.ParseShowInt64`).
- Evaluation on the test half (`model/model.py:72-80`): `predict_proba` and the metrics belong to scikit-learn, so an empty test half, which makes them raise, is not modelled.
- Simulation.MeanProba: requires at least one voter, because `predict_proba` on an empty frame raises inside scikit-learn before the mean is taken.
- Trainer.ValueCounts: lists codes in order of first appearance, whereas pandas orders them by descending count. Only the set of codes and their shares are modelled.
- Trainer.Readable: assumes every row has the columns the script reads. The `KeyError` for a missing column in `model/model.py` is not modelled.
- Simulation.Flag: only defined for the seven feature flag names, the only ones `main` asks for.
- Simulation.CountLines and Simulation.PercentLines: each report line holds the class code. The text printed for it is `Simulation.PartyLabel` of that code, whose properties are proved separately.
- The vote-intention exclusion set and the "8"→"2" relabel are not in the code, so they are not modelled.
