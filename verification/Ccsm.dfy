/** Rate selection of the customized clock source module (module/ccsm/src/mod_ccsm.c); rates are 64 bits wide. */
module Ccsm {
  import opened FwkStatus
  import opened Arithmetic

  datatype Mode = NoRounding | Nearest | Down | Up | Unknown

  datatype Rates = Rates(nominal: nat, fallback: nat)

  datatype Config = Config(
    tableProvided: bool,
    table: seq<Rates>,
    fallbackThreshold: nat,
    fallbackPercentage: nat,
    minRate: nat,
    maxRate: nat,
    step: nat
  )

  /** `FWK_ALIGN_PREVIOUS` and `FWK_ALIGN_NEXT`, the latter with 64-bit sums. */
  function AlignPrevious(v: nat, step: nat): nat
    requires step > 0
  {
    v / step * step
  }

  function AlignNext(v: nat, step: nat): nat
    requires step > 0
  {
    AlignPrevious((v + step - 1) % TWO64, step)
  }

  function RoundNearest(rate: nat, step: nat): nat
    requires step > 0
  {
    var previous, next := AlignPrevious(rate, step), AlignNext(rate, step);
    if rate - previous > (next - rate) % TWO64 then next else previous
  }

  function Distance(a: nat, b: nat): nat {
    if a <= b then b - a else a - b
  }

  /** `AlignPrevious` is the greatest multiple not above the value. */
  lemma PreviousIsGreatest(v: nat, step: nat, m: nat)
    requires step > 0
    ensures AlignPrevious(v, step) <= v < AlignPrevious(v, step) + step && AlignPrevious(v, step) % step == 0
    ensures m % step == 0 && m <= v ==> m <= AlignPrevious(v, step)
  {
    PreviousIsMultiple(v, step);
    if m % step == 0 && m <= v && m > AlignPrevious(v, step) {
      MultiplesApart(AlignPrevious(v, step), m, step);
    }
  }

  lemma PreviousIsMultiple(v: nat, step: nat)
    requires step > 0
    ensures AlignPrevious(v, step) <= v < AlignPrevious(v, step) + step && AlignPrevious(v, step) % step == 0
  {
    var q := v / step;
    assert v == step * q + v % step;
    assert q * step == step * q;
    DivideUnique(step * q, step, q, 0);
  }

  /** `AlignNext` is the least multiple not below the value. */
  lemma NextIsLeast(v: nat, step: nat, m: nat)
    requires step > 0 && v + step <= TWO64
    ensures v <= AlignNext(v, step) < v + step && AlignNext(v, step) % step == 0
    ensures m % step == 0 && m >= v ==> m >= AlignNext(v, step)
  {
    assert (v + step - 1) % TWO64 == v + step - 1;
    PreviousIsGreatest(v + step - 1, step, 0);
    var next := AlignNext(v, step);
    if m % step == 0 && v <= m < next {
      MultiplesApart(m, next, step);
    }
  }

  lemma MultiplesApart(m: nat, n: nat, step: nat)
    requires step > 0 && m % step == 0 && n % step == 0 && m < n
    ensures m + step <= n
  {
    assert m == step * (m / step) && n == step * (n / step);
    RoomForOne(step, n / step, m / step);
  }

  /** Where the 64-bit sum of `AlignNext` passes 2^64, it yields 0. */
  lemma NextWraps(v: nat, step: nat)
    requires 0 < step < TWO64 && v < TWO64 < v + step
    ensures AlignNext(v, step) == 0
  {
    var w := v + step - 1 - TWO64;
    ModuloUnique(w, TWO64, 1);
    DivideUnique(w, step, 0, w);
  }

  predicate Multiple(m: nat, step: nat)
    requires step > 0
  {
    m % step == 0
  }

  /** `r` is a multiple, and no other is as close unless it is higher. */
  ghost predicate Closest(rate: nat, step: nat, r: nat)
    requires step > 0
  {
    && Multiple(r, step)
    && forall m: nat :: Multiple(m, step) ==>
      Distance(rate, r) < Distance(rate, m) || (Distance(rate, r) == Distance(rate, m) && r <= m)
  }

  /** The rates for which NEAREST works although the next multiple wraps: the lower one is closest, and it is taken. */
  predicate LowerTaken(rate: nat, step: nat)
    requires step > 0
  {
    var previous := AlignPrevious(rate, step);
    rate - previous <= previous + step - rate && (previous == 0 || rate - previous <= TWO64 - rate)
  }

  /** The result of `AlignNext`: the least multiple not below the value, or 0 where the sum wraps. */
  lemma NextOrZero(v: nat, step: nat)
    requires 0 < step < TWO64 && v < TWO64
    ensures AlignNext(v, step) % step == 0
    ensures if v + step <= TWO64 then v <= AlignNext(v, step) < v + step else AlignNext(v, step) == 0
  {
    if v + step <= TWO64 {
      NextIsLeast(v, step, 0);
    } else {
      NextWraps(v, step);
      DivideUnique(0, step, 0, 0);
    }
  }

  /** The multiple after a rate that is none. */
  lemma NextMultiple(rate: nat, step: nat)
    requires step > 0 && rate % step != 0 && rate + step <= TWO64
    ensures AlignNext(rate, step) == AlignPrevious(rate, step) + step
  {
    PreviousIsGreatest(rate, step, rate);
    var p := AlignPrevious(rate, step);
    assert p + step == step * (rate / step + 1);
    DivideUnique(p + step, step, rate / step + 1, 0);
    NextIsLeast(rate, step, p + step);
    MultiplesApart(p, AlignNext(rate, step), step);
  }

  /** Of two neighbours, `p` at or below the rate and the one a step above: the closer, or the lower of equals. */
  function CloserOf(rate: nat, p: nat, step: nat): nat {
    if rate - p <= p + step - rate then p else p + step
  }

  /** Only the two multiples around a rate compete. */
  lemma ClosestOfTwo(rate: nat, step: nat, r: nat)
    requires step > 0 && rate % step != 0
    ensures Closest(rate, step, r) <==> r == CloserOf(rate, AlignPrevious(rate, step), step)
  {
    var p := AlignPrevious(rate, step);
    PreviousIsGreatest(rate, step, rate);
    assert Multiple(p, step) && Multiple(p + step, step) by {
      assert p == step * (rate / step);
      DivideUnique(p + step, step, rate / step + 1, 0);
    }
    var best := CloserOf(rate, p, step);
    forall m: nat | Multiple(m, step)
      ensures Distance(rate, best) < Distance(rate, m) || (Distance(rate, best) == Distance(rate, m) && best <= m)
    {
      PreviousIsGreatest(rate, step, m);
      if m > p {
        MultiplesApart(p, m, step);
      }
    }
    assert Closest(rate, step, best);
  }

  /** NEAREST where the next multiple does not wrap. */
  lemma NearestPlain(rate: nat, step: nat)
    requires step > 0 && rate % step != 0 && rate + step <= TWO64
    ensures RoundNearest(rate, step) == CloserOf(rate, AlignPrevious(rate, step), step)
  {
    var p := AlignPrevious(rate, step);
    PreviousIsMultiple(rate, step);
    NextMultiple(rate, step);
    ModuloUnique(p + step - rate, TWO64, 0);
  }

  /** NEAREST where the next multiple wraps to 0. */
  lemma NearestWraps(rate: nat, step: nat)
    requires 0 < step < TWO64 && 0 < rate < TWO64 < rate + step && rate % step != 0
    ensures RoundNearest(rate, step) == CloserOf(rate, AlignPrevious(rate, step), step) <==> LowerTaken(rate, step)
  {
    PreviousIsMultiple(rate, step);
    NextWraps(rate, step);
    ModuloUnique(TWO64 - rate, TWO64, -1);
    assert RoundNearest(rate, step) ==
      if rate - AlignPrevious(rate, step) > TWO64 - rate then 0 else AlignPrevious(rate, step);
  }

  /**
    NEAREST yields the closest multiple, of two equally close ones the lower, exactly when the rate is a multiple, the
    sum for the next one does not pass 2^64, or the lower one is closest and, unless it is 0, not further than 2^64.
  */
  lemma NearestIsNearest(rate: nat, step: nat)
    requires 0 < step < TWO64 && rate < TWO64
    ensures Closest(rate, step, RoundNearest(rate, step)) <==>
      rate % step == 0 || rate + step <= TWO64 || LowerTaken(rate, step)
  {
    PreviousIsGreatest(rate, step, rate);
    if rate % step == 0 {
      assert Closest(rate, step, rate);
    } else {
      ClosestOfTwo(rate, step, RoundNearest(rate, step));
      if rate + step <= TWO64 {
        NearestPlain(rate, step);
      } else {
        NearestWraps(rate, step);
      }
    }
  }

  /** With a step of 10, 8 below 2^64 is 2 below a multiple, but NEAREST goes down by 8, and UP yields 0. */
  lemma NearestMisses()
    ensures !Closest(TWO64 - 8, 10, RoundNearest(TWO64 - 8, 10)) && AlignNext(TWO64 - 8, 10) == 0
  {
    NearestIsNearest(TWO64 - 8, 10);
  }

  /** The multiple of the step that a rounding mode makes of a rate, if it accepts the rate. */
  function Rounded(rate: nat, step: nat, mode: Mode): Option<nat>
    requires step > 0
  {
    if rate % step == 0 then
      Some(rate)
    else
      match mode
      case Nearest => Some(RoundNearest(rate, step))
      case Down => Some(AlignPrevious(rate, step))
      case Up => Some(AlignNext(rate, step))
      case NoRounding => None
      case Unknown => None
  }

  /** The rounding takes the next multiple, and that wraps to 0. */
  predicate WrapsToZero(rate: nat, step: nat, mode: Mode)
    requires step > 0
  {
    && rate % step != 0 && rate + step > TWO64
    && (mode == Up || (mode == Nearest && rate - AlignPrevious(rate, step) > TWO64 - rate))
  }

  /** A rate of a step or more is rounded to 0 exactly when the next multiple, which wraps, is taken. */
  lemma RoundedToZero(rate: nat, step: nat, mode: Mode)
    requires 0 < step < TWO64 && step <= rate < TWO64 && Rounded(rate, step, mode).Some?
    ensures Rounded(rate, step, mode).value == 0 <==> WrapsToZero(rate, step, mode)
  {
    PreviousPositive(rate, step);
    NextOrZero(rate, step);
    if rate % step != 0 && rate + step > TWO64 {
      ModuloUnique(TWO64 - rate, TWO64, -1);
    }
  }

  /**
    Rounding yields a multiple. It is less than one step away, and not below the greatest multiple not above the rate,
    exactly when it does not wrap to 0 or the rate is below the step.
  */
  lemma RoundedIsMultiple(rate: nat, step: nat, mode: Mode)
    requires 0 < step < TWO64 && rate < TWO64 && Rounded(rate, step, mode).Some?
    ensures var r := Rounded(rate, step, mode).value;
      && r % step == 0
      && (AlignPrevious(rate, step) <= r && Distance(rate, r) < step <==>
            rate < step || !WrapsToZero(rate, step, mode))
  {
    if rate >= step {
      RoundedToZero(rate, step, mode);
    }
    PreviousIsGreatest(rate, step, rate);
    NextOrZero(rate, step);
    PreviousPositive(rate, step);
    RoundedCases(rate, step, mode);
  }

  lemma PreviousPositive(v: nat, step: nat)
    requires step > 0
    ensures AlignPrevious(v, step) > 0 <==> v >= step
  {
    PreviousIsGreatest(v, step, step);
    DivideUnique(step, step, 1, 0);
  }

  lemma RoundedCases(rate: nat, step: nat, mode: Mode)
    requires step > 0 && Rounded(rate, step, mode).Some?
    ensures var r := Rounded(rate, step, mode).value;
      (r == rate && rate % step == 0) || r == AlignPrevious(rate, step) || r == AlignNext(rate, step)
  {
  }

  /** A lower rate stays lower, rounded down, exactly when the rounding of the higher one does not wrap. */
  lemma RoundedKeepsOrder(low: nat, high: nat, step: nat, mode: Mode)
    requires 0 < step < TWO64 && low <= high < TWO64 && Rounded(high, step, mode).Some?
    ensures AlignPrevious(low, step) <= Rounded(high, step, mode).value <==>
      low < step || !WrapsToZero(high, step, mode)
  {
    if high >= step {
      RoundedToZero(high, step, mode);
    }
    PreviousPositive(low, step);
    PreviousIsGreatest(low, step, low);
    PreviousIsGreatest(high, step, AlignPrevious(low, step));
    RoundedIsMultiple(high, step, mode);
  }

  /** `is_rate_entry_valid`. */
  predicate ValidEntry(c: Config, r: Rates) {
    c.minRate <= r.nominal <= c.maxRate && (r.fallback == 0 || c.minRate <= r.fallback)
  }

  /** An entry is in order: its fallback is not above its nominal rate, nor the entry before it. */
  predicate InOrder(table: seq<Rates>, n: nat)
    requires n < |table|
  {
    table[n].fallback <= table[n].nominal && (n > 0 ==> table[n - 1].nominal <= table[n].nominal)
  }

  /** The first `n` entries are in order and valid. */
  predicate CheckedBelow(c: Config, n: nat)
    requires n <= |c.table|
  {
    forall i :: 0 <= i < n ==> InOrder(c.table, i) && ValidEntry(c, c.table[i])
  }

  /** What `ccsm_element_init` accepts. */
  predicate Checked(c: Config) {
    CheckedBelow(c, |c.table|)
  }

  /** The rates ascend, each is in range, and each fallback is none, or in range and not above its nominal rate. */
  predicate TableFits(c: Config) {
    forall i :: 0 <= i < |c.table| ==>
      && c.table[i].fallback <= c.table[i].nominal && (i > 0 ==> c.table[i - 1].nominal <= c.table[i].nominal)
      && c.minRate <= c.table[i].nominal <= c.maxRate
      && (c.table[i].fallback == 0 || c.minRate <= c.table[i].fallback)
  }

  lemma CheckedExactly(c: Config)
    ensures Checked(c) <==> TableFits(c)
  {
    if Checked(c) {
      assert forall i :: 0 <= i < |c.table| ==> InOrder(c.table, i) && ValidEntry(c, c.table[i]);
    }
    if TableFits(c) {
      assert forall i :: 0 <= i < |c.table| ==> InOrder(c.table, i) && ValidEntry(c, c.table[i]);
    }
  }

  /** The table checks of `ccsm_element_init`: the first entry that fails decides which error is returned. */
  method CheckTable(c: Config) returns (status: int)
    ensures status == SUCCESS <==> Checked(c)
    ensures status == SUCCESS <==> TableFits(c)
    ensures status == E_DATA <==>
      exists n: nat :: n < |c.table| && CheckedBelow(c, n) && !InOrder(c.table, n)
    ensures status == E_SUPPORT <==>
      exists n: nat :: n < |c.table| && CheckedBelow(c, n) && InOrder(c.table, n) && !ValidEntry(c, c.table[n])
    ensures status == SUCCESS || status == E_DATA || status == E_SUPPORT
  {
    CheckedExactly(c);
    hide TableFits;
    var previous := 0;
    for n := 0 to |c.table|
      invariant previous == if n == 0 then 0 else c.table[n - 1].nominal
      invariant CheckedBelow(c, n)
    {
      var entry := c.table[n];
      if entry.fallback > entry.nominal || entry.nominal < previous {
        return E_DATA;
      }
      if !ValidEntry(c, entry) {
        return E_SUPPORT;
      }
      previous := entry.nominal;
    }
    status := SUCCESS;
  }

  /** `get_rounded_rate`. */
  method GetRoundedRate(rate: nat, step: nat, mode: Mode) returns (status: int, rounded: nat)
    requires step > 0
    ensures status == SUCCESS <==> Rounded(rate, step, mode).Some?
    ensures status == SUCCESS ==> Some(rounded) == Rounded(rate, step, mode)
    ensures status != SUCCESS ==> rounded == rate && status == if mode == NoRounding then E_RANGE else E_SUPPORT
  {
    status, rounded := SUCCESS, rate;
    if rate % step > 0 {
      match mode
      case NoRounding => status := E_RANGE;
      case Nearest => rounded := RoundNearest(rate, step);
      case Down => rounded := AlignPrevious(rate, step);
      case Up => rounded := AlignNext(rate, step);
      case Unknown => status := E_SUPPORT;
    }
  }

  /** `compare_rate_entry`: the difference of two 64-bit rates, cut to a 32-bit integer. */
  function Compare(rate: nat, nominal: nat): int {
    var low := (rate - nominal) % TWO32;
    if low < TWO32 / 2 then low else low - TWO32
  }

  /** The comparison is that of the rates exactly when their difference fits the integer. */
  lemma CompareExact(rate: nat, nominal: nat)
    ensures Compare(rate, nominal) == rate - nominal <==> -(TWO32 / 2) <= rate - nominal < TWO32 / 2
    ensures Compare(rate, nominal) == 0 && Distance(rate, nominal) < TWO32 ==> rate == nominal
  {
  }

  /** Binary search among the entries from `low` to `high`. */
  function Search(table: seq<Rates>, rate: nat, low: nat, high: nat): (k: Option<nat>)
    requires low <= high <= |table|
    ensures k.Some? ==> low <= k.value < high && Compare(rate, table[k.value].nominal) == 0
    decreases high - low
  {
    if low == high then
      None
    else
      var mid := (low + high) / 2;
      var order := Compare(rate, table[mid].nominal);
      if order == 0 then Some(mid)
      else if order < 0 then Search(table, rate, low, mid)
      else Search(table, rate, mid + 1, high)
  }

  predicate Ascending(table: seq<Rates>) {
    forall i, j :: 0 <= i < j < |table| ==> table[i].nominal <= table[j].nominal
  }

  /** The difference of the rate to every entry fits a 32-bit integer. */
  predicate Narrow(table: seq<Rates>, rate: nat) {
    forall i :: 0 <= i < |table| ==> -(TWO32 / 2) <= rate - table[i].nominal < TWO32 / 2
  }

  /** Where all differences fit, the search finds an entry with exactly the rate, whenever there is one. */
  lemma {:induction false} SearchFinds(table: seq<Rates>, rate: nat, low: nat, high: nat)
    requires low <= high <= |table| && Ascending(table) && Narrow(table, rate)
    ensures Search(table, rate, low, high).Some? <==> exists i :: low <= i < high && table[i].nominal == rate
    ensures var k := Search(table, rate, low, high);
      k.Some? ==> table[k.value].nominal == rate
    decreases high - low
  {
    hide Compare;
    if low == high {
    } else {
      var mid := (low + high) / 2;
      CompareExact(rate, table[mid].nominal);
      if rate < table[mid].nominal {
        SearchFinds(table, rate, low, mid);
      } else if rate > table[mid].nominal {
        SearchFinds(table, rate, mid + 1, high);
      }
    }
  }

  /** A rate 2^32 away is taken for the requested one, and an entry with exactly the rate is missed. */
  lemma SearchMistakes()
    ensures Search([Rates(TWO32 + 5, 0)], 5, 0, 1) == Some(0)
    ensures Search([Rates(5, 0), Rates(TWO32 / 2 + 6, 0)], 5, 0, 2) == None
  {
    assert Compare(5, TWO32 / 2 + 6) > 0;
    assert Search([Rates(5, 0), Rates(TWO32 / 2 + 6, 0)], 5, 2, 2) == None;
  }

  /** `get_indexed_rates`. */
  method GetIndexedRates(c: Config, rate: nat) returns (status: int, rates: Rates)
    ensures status == SUCCESS <==> Search(c.table, rate, 0, |c.table|).Some?
    ensures status == SUCCESS ==> rates in c.table && Compare(rate, rates.nominal) == 0
    ensures status == SUCCESS ==> rates == c.table[Search(c.table, rate, 0, |c.table|).value]
    ensures status != SUCCESS ==> status == E_PARAM
    ensures Ascending(c.table) && Narrow(c.table, rate) ==>
      if status == SUCCESS then rates.nominal == rate else forall i :: 0 <= i < |c.table| ==> c.table[i].nominal != rate
  {
    if Ascending(c.table) && Narrow(c.table, rate) {
      SearchFinds(c.table, rate, 0, |c.table|);
    }
    var k := Search(c.table, rate, 0, |c.table|);
    if k.None? {
      return E_PARAM, Rates(0, 0);
    }
    return SUCCESS, c.table[k.value];
  }

  /** The fallback rate that goes with a nominal one when no table is given. */
  function Fraction(c: Config, nominal: nat): nat {
    Product(c.fallbackPercentage, nominal / 100);
    if nominal >= c.fallbackThreshold then c.fallbackPercentage * (nominal / 100) else 0
  }

  /** Both rates rounded, the fallback always downwards. */
  function Selected(c: Config, r: Rates, mode: Mode): Rates
    requires c.step > 0 && Rounded(r.nominal, c.step, mode).Some?
  {
    var nominal := Rounded(r.nominal, c.step, mode).value;
    var fallback := if c.tableProvided then r.fallback else Fraction(c, nominal);
    Rates(nominal, Rounded(fallback, c.step, Down).value)
  }

  /** The rates that a request starts from: the table entry that the search finds, or the rate itself. */
  function Requested(c: Config, rate: nat): (r: Option<Rates>) {
    if c.tableProvided then
      var k := Search(c.table, rate, 0, |c.table|);
      if k.Some? then Some(c.table[k.value]) else None
    else
      Some(Rates(rate, 0))
  }

  lemma {:induction false} CheckedAscending(c: Config, i: nat, j: nat)
    requires Checked(c) && i <= j < |c.table|
    ensures c.table[i].nominal <= c.table[j].nominal
    decreases j - i
  {
    if i == j {
    } else {
      CheckedAscending(c, i, j - 1);
      assert InOrder(c.table, j);
    }
  }

  /** Where all differences fit, a request starts from an entry with its own rate, if there is one. */
  lemma RequestedExact(c: Config, rate: nat)
    requires c.tableProvided ==> Checked(c) && Narrow(c.table, rate)
    ensures Requested(c, rate).Some? <==>
      !c.tableProvided || exists i :: 0 <= i < |c.table| && c.table[i].nominal == rate
    ensures Requested(c, rate).Some? ==> Requested(c, rate).value.nominal == rate
  {
    if c.tableProvided {
      forall i, j | 0 <= i < j < |c.table|
        ensures c.table[i].nominal <= c.table[j].nominal
      {
        CheckedAscending(c, i, j);
      }
      SearchFinds(c.table, rate, 0, |c.table|);
    }
  }

  /** The greatest multiple of the step that is not above the value. */
  predicate GreatestMultiple(m: nat, step: nat, v: nat)
    requires step > 0
  {
    m % step == 0 && m <= v < m + step
  }

  /**
    The fallback that goes with a nominal rate: from the threshold on, or with a table always, the greatest multiple of
    the step not above the percentage of whole hundredths, or the entry; below the threshold none.
  */
  predicate FallbackFits(c: Config, r: Rates, rates: Rates)
    requires c.step > 0
  {
    if c.tableProvided then GreatestMultiple(rates.fallback, c.step, r.fallback)
    else if rates.nominal < c.fallbackThreshold then rates.fallback == 0
    else
      var share := c.fallbackPercentage * (rates.nominal / 100);
      share >= 0 && GreatestMultiple(rates.fallback, c.step, share)
  }

  lemma SelectedFallback(c: Config, r: Rates, mode: Mode)
    requires c.step > 0 && Rounded(r.nominal, c.step, mode).Some?
    ensures FallbackFits(c, r, Selected(c, r, mode))
  {
    var nominal := Rounded(r.nominal, c.step, mode).value;
    var fallback := if c.tableProvided then r.fallback else Fraction(c, nominal);
    Product(c.fallbackPercentage, nominal / 100);
    RoundedDown(fallback, c.step);
    PreviousIsGreatest(fallback, c.step, 0);
    if !c.tableProvided && nominal < c.fallbackThreshold {
      assert Selected(c, r, mode).fallback <= 0;
    }
  }

  /** DOWN takes the greatest multiple not above the rate, UP the least not below it, if that fits 64 bits. */
  lemma RoundedDirections(rate: nat, step: nat)
    requires step > 0
    ensures GreatestMultiple(Rounded(rate, step, Down).value, step, rate)
    ensures rate + step <= TWO64 ==>
      var up := Rounded(rate, step, Up).value;
      up % step == 0 && up - step < rate <= up
  {
    RoundedDown(rate, step);
    PreviousIsGreatest(rate, step, 0);
    if rate + step <= TWO64 {
      NextIsLeast(rate, step, 0);
    }
  }

  /** The fallback stays at or below the nominal rate, unless the latter wraps to 0 and the former does not. */
  predicate StaysBelow(c: Config, r: Rates, mode: Mode)
    requires c.step > 0
  {
    !c.tableProvided || r.fallback < c.step || !WrapsToZero(r.nominal, c.step, mode)
  }

  /** The nominal rate can be rounded and both rates are in range then. */
  predicate Selectable(c: Config, r: Rates, mode: Mode)
    requires c.step > 0
  {
    Rounded(r.nominal, c.step, mode).Some? && ValidEntry(c, Selected(c, r, mode))
  }

  /** What a selection succeeds for, spelled out. */
  lemma SelectableWhen(c: Config, r: Rates, mode: Mode)
    requires c.step > 0
    ensures Selectable(c, r, mode) <==>
      && (r.nominal % c.step == 0 || mode == Nearest || mode == Down || mode == Up)
      && var rates := Selected(c, r, mode);
        c.minRate <= rates.nominal <= c.maxRate && (rates.fallback == 0 || c.minRate <= rates.fallback)
  {
  }

  lemma SelectedExactly(c: Config, r: Rates, mode: Mode)
    requires 0 < c.step < TWO64 && r.nominal < TWO64 && Rounded(r.nominal, c.step, mode).Some?
    requires if c.tableProvided then r.fallback <= r.nominal else c.fallbackPercentage <= 100
    ensures var s := Selected(c, r, mode);
      && s.nominal % c.step == 0 && s.fallback % c.step == 0
      && (s.fallback <= s.nominal <==> StaysBelow(c, r, mode)) && (s.fallback <= s.nominal || s.nominal == 0)
  {
    hide AlignNext, AlignPrevious, RoundNearest, WrapsToZero;
    var nominal := Rounded(r.nominal, c.step, mode).value;
    RoundedIsMultiple(r.nominal, c.step, mode);
    if c.tableProvided {
      RoundedDown(r.fallback, c.step);
      RoundedKeepsOrder(r.fallback, r.nominal, c.step, mode);
      if r.nominal >= c.step {
        RoundedToZero(r.nominal, c.step, mode);
      }
    } else {
      FractionBelow(c.fallbackPercentage, nominal);
      RoundedDown(Fraction(c, nominal), c.step);
    }
  }

  lemma RoundedDown(rate: nat, step: nat)
    requires step > 0
    ensures Rounded(rate, step, Down) == Some(AlignPrevious(rate, step))
    ensures AlignPrevious(rate, step) % step == 0 && AlignPrevious(rate, step) <= rate
  {
    PreviousIsGreatest(rate, step, rate);
  }

  /** A table that passes its check, from which a fallback rate above the nominal one is selected. */
  lemma FallbackExceeds()
    ensures var c := Config(true, [Rates(TWO64 - 8, 10)], 0, 0, 0, TWO64 - 1, 10);
      && Checked(c) && Requested(c, TWO64 - 8) == Some(Rates(TWO64 - 8, 10))
      && Rounded(TWO64 - 8, 10, Up).Some? && Selected(c, Rates(TWO64 - 8, 10), Up) == Rates(0, 10)
      && ValidEntry(c, Rates(0, 10))
  {
    NearestMisses();
  }

  /** `ccsm_clock_select_rates`. */
  method SelectRates(c: Config, rate: nat, mode: Mode) returns (status: int, rates: Rates)
    requires 0 < c.step < TWO64 && rate < TWO64
    requires if c.tableProvided then Checked(c) && c.maxRate < TWO64 else c.fallbackPercentage <= 100
    ensures status == E_PARAM <==> Requested(c, rate).None?
    ensures status == E_RANGE <==>
      Requested(c, rate).Some? && mode == NoRounding && Requested(c, rate).value.nominal % c.step != 0
    ensures status == SUCCESS <==> Requested(c, rate).Some? && Selectable(c, Requested(c, rate).value, mode)
    ensures status == SUCCESS ==>
      && var r := Requested(c, rate).value;
      && rates == Selected(c, r, mode)
      && rates.nominal % c.step == 0 && rates.fallback % c.step == 0
      && c.minRate <= rates.nominal <= c.maxRate
      && (rates.fallback == 0 || c.minRate <= rates.fallback)
      && (rates.fallback <= rates.nominal <==> StaysBelow(c, r, mode))
      && (rates.fallback <= rates.nominal || rates.nominal == c.minRate == 0)
    ensures status == SUCCESS ==> FallbackFits(c, Requested(c, rate).value, rates)
    ensures status == SUCCESS && (c.tableProvided ==> Narrow(c.table, rate)) ==>
      Some(rates.nominal) == Rounded(rate, c.step, mode)
    ensures status == SUCCESS || status == E_RANGE || status == E_PARAM || status == E_SUPPORT
  {
    rates := Rates(rate, 0);
    if c.tableProvided {
      status, rates := GetIndexedRates(c, rate);
      if status != SUCCESS {
        return;
      }
      assert InOrder(c.table, Search(c.table, rate, 0, |c.table|).value);
    }
    if c.tableProvided ==> Narrow(c.table, rate) {
      RequestedExact(c, rate);
    }
    ghost var r := rates;
    assert Requested(c, rate) == Some(r);
    var nominal, fallback;
    status, nominal := GetRoundedRate(rates.nominal, c.step, mode);
    if status != SUCCESS {
      return;
    }
    fallback := rates.fallback;
    if !c.tableProvided {
      fallback := Fraction(c, nominal);
    }
    SelectedExactly(c, r, mode);
    SelectedFallback(c, r, mode);
    hide FallbackFits;
    status, fallback := GetRoundedRate(fallback, c.step, Down);
    rates := Rates(nominal, fallback);
    assert rates == Selected(c, r, mode);
    status := if ValidEntry(c, rates) then SUCCESS else E_SUPPORT;
  }

  /** At most 100 percent of a rate, computed in whole hundredths, does not exceed the rate. */
  lemma FractionBelow(percentage: nat, rate: nat)
    requires percentage <= 100
    ensures 0 <= percentage * (rate / 100) <= rate
  {
    Product(percentage, rate / 100);
    Product(100 - percentage, rate / 100);
    assert (100 - percentage) * (rate / 100) == 100 * (rate / 100) - percentage * (rate / 100);
  }
}
