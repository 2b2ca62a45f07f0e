/** The print-period resolver of the image-classification compression
    example (`getPrintPeriod`): turns the user's `--print-period` or
    `--print-frequency` choice, the dataset size and the mini-batch size
    into the number of mini-batches between two progress prints. */
module PrintPeriod {
  import opened Wrappers
  import opened PyInt

  /** Prints per epoch used when the user sets neither option. */
  const DefaultPrintFrequency: int := 10

  /** The two fields of the parsed command line the resolver reads;
      `None` is an option the user did not set. */
  datatype Namespace = Namespace(printPeriod: Option<int>, printFrequency: Option<int>)

  /** The exceptions the resolver can raise. */
  datatype Error =
    | BatchSizeZero   // ZeroDivisionError from `samples / batch_size`, outside the suppress block
    | PeriodUnset     // TypeError from `None < 1` once a zero frequency left the period unset
    | PeriodBelowOne  // ValueError: the user's own choice resolved to a period below 1

  /** Whether the user set at least one of the two print options. */
  predicate UserSet(ns: Namespace) {
    ns.printPeriod.Some? || ns.printFrequency.Some?
  }

  /** Prints per epoch: the user's frequency, zero and negatives included,
      or the default. */
  function PrintsPerEpoch(ns: Namespace): int {
    ns.printFrequency.GetOr(DefaultPrintFrequency)
  }

  /** Mini-batches per epoch, `math.ceil(samples / batch_size)`. */
  function Batches(samples: int, batchSize: int): int
    requires batchSize != 0
  {
    CeilDiv(samples, batchSize)
  }

  /** The period before the lower bound is enforced: the explicit period,
      or batches-per-epoch floor-divided by prints-per-epoch. A zero divisor
      there has its exception suppressed and leaves the period `None`. */
  function Candidate(ns: Namespace, samples: int, batchSize: int): (r: Result<Option<int>, Error>)
    // an explicit period is taken as it is, without touching the batch size
    ensures ns.printPeriod.Some? ==> r == Success(ns.printPeriod)
    // the only exception at this stage is the unguarded true division
    ensures r.Failure? <==> ns.printPeriod.None? && batchSize == 0
    // the period stays unset exactly when the suppressed division by zero happened
    ensures r.Success? && r.value.None? <==>
              ns.printPeriod.None? && batchSize != 0 && PrintsPerEpoch(ns) == 0
  {
    match ns.printPeriod
    case Some(p) => Success(Some(p))
    case None =>
      if batchSize == 0 then Failure(BatchSizeZero)
      else
        var ppe := PrintsPerEpoch(ns);
        if ppe == 0 then Success(None)
        else Success(Some(FloorDiv(Batches(samples, batchSize), ppe)))
  }

  /** `getPrintPeriod(namespace, samples_number, batch_size)`. */
  function GetPrintPeriod(ns: Namespace, samples: int, batchSize: int): (r: Result<int, Error>)
    // every period handed back is usable as a modulus of the batch index
    ensures r.Success? ==> r.value >= 1
    // an explicit period wins, whatever the data and batch sizes
    ensures ns.printPeriod.Some? && ns.printPeriod.value >= 1 ==> r == Success(ns.printPeriod.value)
    // an explicit period below 1 is refused, never raised to 1
    ensures ns.printPeriod.Some? && ns.printPeriod.value < 1 ==> r == Failure(PeriodBelowOne)
    // without an explicit period a zero batch size raises before anything else
    ensures ns.printPeriod.None? && batchSize == 0 ==> r == Failure(BatchSizeZero)
    // a zero frequency leaves the period unset, and the comparison with 1 raises
    ensures ns.printPeriod.None? && batchSize != 0 && ns.printFrequency == Some(0) ==> r == Failure(PeriodUnset)
  {
    var candidate :- Candidate(ns, samples, batchSize);
    match candidate
    case None => Failure(PeriodUnset)
    case Some(p) =>
      if p >= 1 then Success(p)
      else if !UserSet(ns) then Success(1)
      else Failure(PeriodBelowOne)
  }

  /** `batches / f >= 1` over the rationals, for a non-zero frequency `f`. */
  predicate AtLeastOnePeriod(batches: int, f: int) {
    (f > 0 && batches >= f) || (f < 0 && batches <= f)
  }

  /** `a // f` reaches 1 exactly when `a / f >= 1` over the rationals. */
  lemma QuotientAtLeastOne(a: int, f: int)
    requires f != 0
    ensures FloorDiv(a, f) >= 1 <==> AtLeastOnePeriod(a, f)
  {
    var q := FloorDiv(a, f);
    if f > 0 {
      if q < 1 {
        MulMonotone(q, 0, f);
      } else {
        MulMonotone(1, q, f);
      }
    } else {
      if q < 1 {
        MulMonotone(q, 0, -f);
      } else {
        MulMonotone(1, q, -f);
      }
    }
  }

  /** With neither option set the resolver never fails on a non-zero batch
      size: it answers the largest `k` with `10 * k` batches fitting in an
      epoch, or 1 when an epoch holds fewer than 10 batches. */
  lemma DefaultNeverFails(ns: Namespace, samples: int, batchSize: int)
    requires !UserSet(ns) && batchSize != 0
    ensures var r := GetPrintPeriod(ns, samples, batchSize);
            var n := Batches(samples, batchSize);
            && r.Success?
            && (n < DefaultPrintFrequency ==> r.value == 1)
            && (n >= DefaultPrintFrequency ==>
                  r.value * DefaultPrintFrequency <= n < (r.value + 1) * DefaultPrintFrequency)
  {
  }

  /** With only a frequency `f` set, the period is `ceil(samples / batch) // f`
      when that reaches 1, and an error otherwise: the user's choice is
      never silently raised to 1. */
  lemma FrequencyOnly(ns: Namespace, samples: int, batchSize: int)
    requires ns.printPeriod.None? && ns.printFrequency.Some?
    requires ns.printFrequency.value != 0 && batchSize != 0
    ensures var r := GetPrintPeriod(ns, samples, batchSize);
            var n := Batches(samples, batchSize);
            var f := ns.printFrequency.value;
            && (r.Success? <==> AtLeastOnePeriod(n, f))
            && (r.Success? ==> r.value == FloorDiv(n, f))
            && (r.Failure? ==> r.error == PeriodBelowOne)
  {
    QuotientAtLeastOne(Batches(samples, batchSize), ns.printFrequency.value);
  }

  /** Exactly when the resolver returns normally, for every input. */
  lemma SucceedsIff(ns: Namespace, samples: int, batchSize: int)
    ensures GetPrintPeriod(ns, samples, batchSize).Success? <==>
      match ns.printPeriod
      case Some(p) => p >= 1
      case None =>
        && batchSize != 0
        && (ns.printFrequency.None? ||
            AtLeastOnePeriod(Batches(samples, batchSize), ns.printFrequency.value))
  {
    if ns.printPeriod.None? && batchSize != 0 {
      if ns.printFrequency.None? {
        DefaultNeverFails(ns, samples, batchSize);
      } else if ns.printFrequency.value != 0 {
        FrequencyOnly(ns, samples, batchSize);
      }
    }
  }

  /** When the user set either option, a successful result is the candidate
      period itself; the fallback to 1 is reserved for the unset case, and
      it fires only when the candidate fell below 1. */
  lemma FallbackOnlyWhenUnset(ns: Namespace, samples: int, batchSize: int)
    requires GetPrintPeriod(ns, samples, batchSize).Success?
    ensures var k := GetPrintPeriod(ns, samples, batchSize).value;
            var c := Candidate(ns, samples, batchSize);
            && c.Success? && c.value.Some?
            && (UserSet(ns) ==> c.value.value == k)
            && (c.value.value != k ==> !UserSet(ns) && k == 1 && c.value.value < 1)
  {
  }

  /** The number of full periods of `k` mini-batches in an epoch of `n`
      mini-batches, counted one period at a time. */
  function Periods(n: int, k: int): nat
    requires k >= 1
    decreases n
  {
    if n < k then 0 else 1 + Periods(n - k, k)
  }

  /** Python's `n // k` counts the full periods of `k` batches in `n`. */
  lemma {:induction false} PeriodsIsFloorDiv(n: int, k: int)
    requires n >= 0 && k >= 1
    ensures Periods(n, k) == FloorDiv(n, k)
    decreases n
  {
    if n < k {
      FloorDivUnique(n, k, 0);
    } else {
      PeriodsIsFloorDiv(n - k, k);
      var q := Periods(n - k, k);
      assert (q + 1) * k == q * k + k;
      FloorDivUnique(n, k, q + 1);
    }
  }

  /** Printing every `k` mini-batches, an epoch of `n` batches holds
      `Periods(n, k)` full periods. With a positive prints-per-epoch target `f` the resolved
      period gives at least `f` of them (or all `n` when the epoch is shorter
      than `f`) and fewer than `2 * f`. */
  lemma PrintsPerEpochBounds(ns: Namespace, samples: int, batchSize: int)
    requires samples >= 0 && batchSize > 0
    requires ns.printPeriod.None? && PrintsPerEpoch(ns) > 0
    requires GetPrintPeriod(ns, samples, batchSize).Success?
    ensures var k := GetPrintPeriod(ns, samples, batchSize).value;
            var n := Batches(samples, batchSize);
            var f := PrintsPerEpoch(ns);
            && (n >= f ==> Periods(n, k) >= f)
            && (n < f ==> Periods(n, k) == n)
            && Periods(n, k) < 2 * f
  {
    var k := GetPrintPeriod(ns, samples, batchSize).value;
    var n := Batches(samples, batchSize);
    var f := PrintsPerEpoch(ns);
    var q := FloorDiv(n, f);
    assert Candidate(ns, samples, batchSize) == Success(Some(q));
    CeilDivNonNegative(samples, batchSize);
    QuotientAtLeastOne(n, f);
    PeriodCount(n, f, k);
  }

  /** The full periods of the resolved period `k`: `k` is `n // f` when an
      epoch holds at least `f` batches and 1 otherwise. */
  lemma PeriodCount(n: int, f: int, k: int)
    requires n >= 0 && f > 0
    requires n >= f ==> k == FloorDiv(n, f)
    requires n < f ==> k == 1
    ensures n >= f ==> Periods(n, k) >= f
    ensures n < f ==> Periods(n, k) == n
    ensures Periods(n, k) < 2 * f
  {
    if n >= f {
      QuotientAtLeastOne(n, f);
      PeriodsIsFloorDiv(n, k);
      PeriodsPerEpoch(n, f);
    } else {
      PeriodsIsFloorDiv(n, 1);
      FloorDivUnique(n, 1, n);
    }
  }

  /** Splitting `n` batches into periods of `k = n // f >= 1` leaves between
      `f` and `2 * f - 1` full periods. */
  lemma PeriodsPerEpoch(n: int, f: int)
    requires f > 0 && n >= f
    ensures f <= FloorDiv(n, FloorDiv(n, f)) < 2 * f
  {
    var k := FloorDiv(n, f);
    QuotientAtLeastOne(n, f);
    var m := FloorDiv(n, k);
    // f * k <= n < (m + 1) * k, so f <= m
    if m < f {
      MulMonotone(m + 1, f, k);
    }
    // m * k <= n < (k + 1) * f <= 2 * k * f, so m < 2 * f
    MulMonotone(k + 1, 2 * k, f);
    if m >= 2 * f {
      MulMonotone(2 * f, m, k);
    }
  }

  /** Worked cases of the resolver. */
  lemma Examples()
    ensures GetPrintPeriod(Namespace(None, None), 1000, 100) == Success(1)
    ensures GetPrintPeriod(Namespace(None, None), 95, 100) == Success(1)
    ensures GetPrintPeriod(Namespace(None, Some(20)), 95, 100) == Failure(PeriodBelowOne)
    ensures GetPrintPeriod(Namespace(Some(5), None), 95, 0) == Success(5)
    ensures GetPrintPeriod(Namespace(None, Some(0)), 95, 100) == Failure(PeriodUnset)
  {
  }
}
