/** Shared vocabulary of the pipeline: optional values, results with an
    error, and sums over sequences of reals and naturals. */
module Common {

  /** A value that may be absent (Python's `None`). */
  datatype Option<+T> = None | Some(value: T)

  /** The outcome of an operation that can raise: a value, or the error it raised. */
  datatype Result<+T, +E> = Ok(value: T) | Err(error: E)

  /** Exact sum of a sequence of reals, front to back. */
  function Sum(xs: seq<real>): real
  {
    if xs == [] then 0.0 else xs[0] + Sum(xs[1..])
  }

  /** Exact sum of a sequence of naturals, front to back. */
  function NatSum(xs: seq<nat>): nat
  {
    if xs == [] then 0 else xs[0] + NatSum(xs[1..])
  }

  /** No element of `xs` occurs twice. */
  predicate Distinct<T(==)>(xs: seq<T>)
  {
    forall i, j :: 0 <= i < j < |xs| ==> xs[i] != xs[j]
  }

  /** One row of a data frame: column name to integer code. */
  type Row = map<string, int>

  /** A pandas DataFrame: its column labels in order, and its rows. */
  datatype Frame = Frame(columns: seq<string>, rows: seq<Row>)

  /** A pandas Series of shares: an index of codes and one value per index entry. */
  datatype Series = Series(index: seq<int>, values: seq<real>)

  /** How often each code of `us` occurs in `xs`. */
  function Counts(us: seq<int>, xs: seq<int>): (cs: seq<nat>)
    ensures |cs| == |us|
  {
    if us == [] then [] else [multiset(xs)[us[0]]] + Counts(us[1..], xs)
  }

  /** Appending `x` to the rows adds one to the total count over distinct
      codes `us` if `x` is among them, and nothing otherwise. */
  lemma {:induction false} CountsSnoc(us: seq<int>, ys: seq<int>, x: int)
    requires Distinct(us)
    ensures NatSum(Counts(us, ys + [x])) == NatSum(Counts(us, ys)) + (if x in us then 1 else 0)
  {
    if us != [] {
      CountsSnoc(us[1..], ys, x);
      assert x in us <==> x == us[0] || x in us[1..];
      assert x == us[0] ==> x !in us[1..];
    }
  }

  /** Entry `j` of the counts is the number of rows equal to `us[j]`. */
  lemma {:induction false} CountsAt(us: seq<int>, xs: seq<int>, j: nat)
    requires j < |us|
    ensures Counts(us, xs)[j] == multiset(xs)[us[j]]
  {
    if j > 0 {
      CountsAt(us[1..], xs, j - 1);
    }
  }

  /** Counting every row under distinct codes that cover all rows counts
      each row exactly once. */
  lemma {:induction false} CountsCover(us: seq<int>, xs: seq<int>)
    requires Distinct(us) && forall x :: x in xs ==> x in us
    ensures NatSum(Counts(us, xs)) == |xs|
  {
    if xs == [] {
      CountsOfNothing(us);
    } else {
      var ys := xs[..|xs| - 1];
      var x := xs[|xs| - 1];
      assert xs == ys + [x];
      CountsCover(us, ys);
      CountsSnoc(us, ys, x);
    }
  }

  lemma {:induction false} CountsOfNothing(us: seq<int>)
    ensures NatSum(Counts(us, [])) == 0
  {
    if us != [] {
      CountsOfNothing(us[1..]);
    }
  }

  /** Real division facts the percentage and share proofs use. */
  lemma DivSelf(x: real)
    requires x > 0.0
    ensures x / x == 1.0
  {
  }

  lemma DivAdd(x: real, y: real, t: real)
    requires t > 0.0
    ensures x / t + y / t == (x + y) / t
  {
  }

  lemma ScaleDiv(k: real, x: real, t: real)
    requires t > 0.0
    ensures k * x / t == k * (x / t)
  {
  }

  lemma DivPositive(x: real, t: real)
    requires x > 0.0 && t > 0.0
    ensures x / t > 0.0
  {
  }
}
