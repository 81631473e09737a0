/**
 * `assess_fee` of tx_trade/orders/execution_policies.py and
 * `apply_fill_to_position` of tx_trade/orders/position_ledger.py, in exact
 * arithmetic: how an order is split into fills changes neither the fees it pays
 * nor the position it leaves.
 */
module PaperCosts {
  import opened Wrappers
  import opened Sums

  type Id = string
  type Currency = string
  type Time = int

  datatype Side = Buy | Sell

  // ---- Fees ---------------------------------------------------------------------------

  datatype FeeRule = FeeRule(instrumentId: Id, currency: Currency, amountPerUnit: real, quantum: real)
  {
    predicate Valid() {
      amountPerUnit > 0.0 && quantum > 0.0
    }
  }

  datatype FeeSchedule = ZeroFees | PerUnit(rules: seq<FeeRule>)
  {
    predicate Valid() {
      PerUnit? ==> rules != [] && forall r :: r in rules ==> r.Valid()
    }
  }

  datatype Fee = Fee(amount: real, currency: Option<Currency>)
  {
    predicate Valid() {
      amount >= 0.0 && (amount == 0.0 <==> currency.None?)
    }
  }

  datatype FeeError = InvalidInput | RuleMissing | CurrencyMissing | FeeCurrencyMismatch

  datatype FeeResult = Charged(fee: Fee) | NotCharged(error: FeeError)

  function FindRule(rules: seq<FeeRule>, instrumentId: Id): Option<FeeRule> {
    if rules == [] then None
    else if rules[0].instrumentId == instrumentId then Some(rules[0])
    else FindRule(rules[1..], instrumentId)
  }

  /** Round a nonnegative amount to whole units, a half upwards. */
  function RoundHalfUp(x: real): int {
    (x + 0.5).Floor
  }

  function Quanta(amount: real, quantum: real): real
    requires quantum > 0.0
  {
    amount / quantum
  }

  function RoundedTo(amount: real, quantum: real): real
    requires quantum > 0.0
  {
    RoundHalfUp(Quanta(amount, quantum)) as real * quantum
  }

  /** The unrounded fee of a quantity. */
  function ExactFee(rule: FeeRule, quantity: real): real {
    rule.amountPerUnit * quantity
  }

  /** What an order has cost in fees once a cumulative quantity is filled. */
  function CumulativeFee(rule: FeeRule, quantity: real): real
    requires rule.Valid()
  {
    RoundedTo(ExactFee(rule, quantity), rule.quantum)
  }

  function AssessFee(schedule: FeeSchedule, instrumentId: Id, currency: Option<Currency>, before: real, after: real): FeeResult
    requires schedule.Valid()
  {
    if before < 0.0 || after <= before then NotCharged(InvalidInput)
    else if schedule.ZeroFees? then Charged(Fee(0.0, None))
    else match FindRule(schedule.rules, instrumentId)
      case None => NotCharged(RuleMissing)
      case Some(rule) =>
        if currency.None? then NotCharged(CurrencyMissing)
        else if currency.value != rule.currency then NotCharged(FeeCurrencyMismatch)
        else
          FoundRule(schedule.rules, instrumentId);
          var fee := CumulativeFee(rule, after) - CumulativeFee(rule, before);
          Charged(Fee(fee, if fee != 0.0 then Some(rule.currency) else None))
  }

  lemma FoundRule(rules: seq<FeeRule>, instrumentId: Id)
    ensures FindRule(rules, instrumentId).Some? ==> FindRule(rules, instrumentId).value in rules
  {
    if rules != [] && rules[0].instrumentId != instrumentId {
      FoundRule(rules[1..], instrumentId);
    }
  }

  lemma RoundedWithinHalf(x: real)
    ensures x - 0.5 < RoundHalfUp(x) as real <= x + 0.5
  {
  }

  lemma ScaledWithinHalf(amount: real, quantum: real)
    requires quantum > 0.0
    ensures amount - quantum / 2.0 < RoundedTo(amount, quantum) <= amount + quantum / 2.0
  {
    var x := Quanta(amount, quantum);
    RoundedWithinHalf(x);
    ScaledBack(amount, quantum, x);
    Between(x - 0.5, RoundHalfUp(x) as real, x + 0.5, quantum);
  }

  lemma ScaledBack(amount: real, quantum: real, x: real)
    requires quantum > 0.0 && x == Quanta(amount, quantum)
    ensures (x - 0.5) * quantum == amount - quantum / 2.0 && (x + 0.5) * quantum == amount + quantum / 2.0
  {
    assert x * quantum == amount;
  }

  lemma Between(a: real, b: real, c: real, scale: real)
    requires a < b <= c && scale > 0.0
    ensures a * scale < b * scale <= c * scale
  {
  }

  lemma CumulativeFeeGrows(rule: FeeRule, a: real, b: real)
    requires rule.Valid() && a <= b
    ensures CumulativeFee(rule, a) <= CumulativeFee(rule, b)
  {
    Ordered(a, b, rule.amountPerUnit);
    RoundedToGrows(ExactFee(rule, a), ExactFee(rule, b), rule.quantum);
  }

  lemma RoundedToGrows(a: real, b: real, quantum: real)
    requires quantum > 0.0 && a <= b
    ensures RoundedTo(a, quantum) <= RoundedTo(b, quantum)
  {
    Quotients(a, b, quantum);
    RoundingGrows(Quanta(a, quantum), Quanta(b, quantum), quantum);
  }

  lemma RoundingGrows(x: real, y: real, scale: real)
    requires x <= y && scale > 0.0
    ensures RoundHalfUp(x) as real * scale <= RoundHalfUp(y) as real * scale
  {
    var u, v := RoundHalfUp(x), RoundHalfUp(y);
    assert u <= v;
    Ordered(u as real, v as real, scale);
  }

  lemma Ordered(a: real, b: real, scale: real)
    requires a <= b && scale > 0.0
    ensures a * scale <= b * scale && scale * a <= scale * b
  {
  }

  lemma Quotients(a: real, b: real, divisor: real)
    requires a <= b && divisor > 0.0
    ensures a / divisor <= b / divisor
  {
  }

  /** A charged fee is never negative and names a currency exactly when it is not zero: the result always constructs. */
  lemma FeesAreValid(schedule: FeeSchedule, instrumentId: Id, currency: Option<Currency>, before: real, after: real)
    requires schedule.Valid()
    ensures var r := AssessFee(schedule, instrumentId, currency, before, after);
            r.Charged? ==> r.fee.Valid()
  {
    if schedule.PerUnit? && FindRule(schedule.rules, instrumentId).Some? && before <= after {
      FoundRule(schedule.rules, instrumentId);
      CumulativeFeeGrows(FindRule(schedule.rules, instrumentId).value, before, after);
    }
  }

  /** The cumulative quantities after each of some partial fills. */
  predicate Increasing(marks: seq<real>) {
    forall i :: 0 <= i < |marks| - 1 ==> marks[i] < marks[i + 1]
  }

  /** The total of the fees assessed fill by fill. */
  function TotalFees(schedule: FeeSchedule, instrumentId: Id, currency: Option<Currency>, marks: seq<real>): real
    requires schedule.Valid()
  {
    if |marks| < 2 then 0.0
    else
      var n := |marks| - 1;
      var r := AssessFee(schedule, instrumentId, currency, marks[n - 1], marks[n]);
      TotalFees(schedule, instrumentId, currency, marks[..n]) + if r.Charged? then r.fee.amount else 0.0
  }

  /** However an order is split, the fees add up to one rounding of the whole. */
  lemma {:induction false} FeesTelescope(schedule: FeeSchedule, instrumentId: Id, currency: Option<Currency>, marks: seq<real>)
    requires schedule.Valid() && schedule.PerUnit?
    requires |marks| >= 2 && marks[0] >= 0.0 && Increasing(marks)
    requires FindRule(schedule.rules, instrumentId).Some?
    requires currency == Some(FindRule(schedule.rules, instrumentId).value.currency)
    ensures FindRule(schedule.rules, instrumentId).value.Valid()
    ensures var rule := FindRule(schedule.rules, instrumentId).value;
            TotalFees(schedule, instrumentId, currency, marks)
            == CumulativeFee(rule, marks[|marks| - 1]) - CumulativeFee(rule, marks[0])
  {
    var n := |marks| - 1;
    FoundRule(schedule.rules, instrumentId);
    FromFirst(marks, n - 1);
    if n >= 2 {
      assert Increasing(marks[..n]);
      FeesTelescope(schedule, instrumentId, currency, marks[..n]);
    }
  }

  lemma FromFirst(marks: seq<real>, n: nat)
    requires n < |marks| && Increasing(marks)
    ensures marks[0] <= marks[n]
  {
    if n > 0 {
      FromFirst(marks, n - 1);
    }
  }

  /** Splits of one quantity from nothing cost the same in total, whatever the partial fills are. */
  lemma SplitDoesNotMatter(schedule: FeeSchedule, instrumentId: Id, currency: Option<Currency>, marks: seq<real>, other: seq<real>)
    requires schedule.Valid() && schedule.PerUnit?
    requires |marks| >= 2 && marks[0] == 0.0 && Increasing(marks)
    requires |other| >= 2 && other[0] == 0.0 && Increasing(other) && other[|other| - 1] == marks[|marks| - 1]
    requires FindRule(schedule.rules, instrumentId).Some?
    requires currency == Some(FindRule(schedule.rules, instrumentId).value.currency)
    ensures TotalFees(schedule, instrumentId, currency, marks) == TotalFees(schedule, instrumentId, currency, other)
  {
    FeesTelescope(schedule, instrumentId, currency, marks);
    FeesTelescope(schedule, instrumentId, currency, other);
  }

  /** The fees of a whole order are within half a quantum of the exact amount. */
  lemma FeesWithinHalfAQuantum(schedule: FeeSchedule, instrumentId: Id, currency: Option<Currency>, marks: seq<real>)
    requires schedule.Valid() && schedule.PerUnit?
    requires |marks| >= 2 && marks[0] == 0.0 && Increasing(marks)
    requires FindRule(schedule.rules, instrumentId).Some?
    requires currency == Some(FindRule(schedule.rules, instrumentId).value.currency)
    ensures var rule := FindRule(schedule.rules, instrumentId).value;
            var exact := ExactFee(rule, marks[|marks| - 1]);
            exact - rule.quantum / 2.0 < TotalFees(schedule, instrumentId, currency, marks) <= exact + rule.quantum / 2.0
  {
    var rule := FindRule(schedule.rules, instrumentId).value;
    FeesTelescope(schedule, instrumentId, currency, marks);
    NothingFilledNothingPaid(rule);
    ScaledWithinHalf(ExactFee(rule, marks[|marks| - 1]), rule.quantum);
  }

  /** The total is a whole number of quanta, the one nearest to the exact fee; halfway between two it is the larger. */
  lemma FeesAreWholeQuanta(schedule: FeeSchedule, instrumentId: Id, currency: Option<Currency>, marks: seq<real>) returns (units: int)
    requires schedule.Valid() && schedule.PerUnit?
    requires |marks| >= 2 && marks[0] == 0.0 && Increasing(marks)
    requires FindRule(schedule.rules, instrumentId).Some?
    requires currency == Some(FindRule(schedule.rules, instrumentId).value.currency)
    ensures var rule := FindRule(schedule.rules, instrumentId).value;
            var exact := rule.amountPerUnit * marks[|marks| - 1];
            && TotalFees(schedule, instrumentId, currency, marks) == units as real * rule.quantum
            && units as real * rule.quantum - rule.quantum / 2.0 <= exact < units as real * rule.quantum + rule.quantum / 2.0
  {
    var rule := FindRule(schedule.rules, instrumentId).value;
    FoundRule(schedule.rules, instrumentId);
    FeesTelescope(schedule, instrumentId, currency, marks);
    NothingFilledNothingPaid(rule);
    units := WholeQuanta(rule, marks[|marks| - 1]);
  }

  lemma WholeQuanta(rule: FeeRule, quantity: real) returns (units: int)
    requires rule.Valid()
    ensures CumulativeFee(rule, quantity) == units as real * rule.quantum
    ensures var total := units as real * rule.quantum;
            total - rule.quantum / 2.0 <= rule.amountPerUnit * quantity < total + rule.quantum / 2.0
  {
    var exact := ExactFee(rule, quantity);
    units := RoundHalfUp(Quanta(exact, rule.quantum));
    NearestUnits(exact, rule.quantum, Quanta(exact, rule.quantum), units);
  }

  lemma NearestUnits(exact: real, quantum: real, x: real, units: int)
    requires quantum > 0.0 && x == Quanta(exact, quantum) && units == RoundHalfUp(x)
    ensures units as real * quantum - quantum / 2.0 <= exact < units as real * quantum + quantum / 2.0
  {
    NearestInteger(x, units);
    QuantaBack(exact, quantum, x);
    WithinHalf(units as real, x, exact, quantum);
  }

  lemma NearestInteger(x: real, units: int)
    requires units == RoundHalfUp(x)
    ensures units as real - 0.5 <= x < units as real + 0.5
  {
  }

  lemma WithinHalf(u: real, x: real, exact: real, quantum: real)
    requires quantum > 0.0 && x * quantum == exact && u - 0.5 <= x < u + 0.5
    ensures u * quantum - quantum / 2.0 <= exact < u * quantum + quantum / 2.0
  {
    var below, above := x - u + 0.5, u - x + 0.5;
    NonnegativeProduct(below, quantum);
    PositiveProduct(above, quantum);
    Apart(x, u, quantum, below);
    Apart(u, x, quantum, above);
    WithinHalfSteps(u * quantum, x * quantum, quantum / 2.0, below * quantum, above * quantum);
  }

  lemma WithinHalfSteps(whole: real, exact: real, half: real, below: real, above: real)
    requires below == exact - whole + half >= 0.0 && above == whole - exact + half > 0.0
    ensures whole - half <= exact < whole + half
  {
  }

  lemma Apart(a: real, b: real, quantum: real, gap: real)
    requires gap == a - b + 0.5
    ensures gap * quantum == a * quantum - b * quantum + quantum / 2.0
  {
  }

  lemma PositiveProduct(a: real, b: real)
    requires a > 0.0 && b > 0.0
    ensures a * b > 0.0
  {
  }

  lemma QuantaBack(exact: real, quantum: real, x: real)
    requires quantum > 0.0 && x == Quanta(exact, quantum)
    ensures x * quantum == exact
  {
    QuotientTimes(exact, quantum);
  }

  /** The first rule of an instrument is the one that counts. */
  predicate FirstRuleAt(rules: seq<FeeRule>, instrumentId: Id, i: int) {
    0 <= i < |rules| && rules[i].instrumentId == instrumentId && forall j :: 0 <= j < i ==> rules[j].instrumentId != instrumentId
  }

  lemma {:induction false} RuleIsFirst(rules: seq<FeeRule>, instrumentId: Id)
    ensures match FindRule(rules, instrumentId)
            case None => forall r :: r in rules ==> r.instrumentId != instrumentId
            case Some(rule) => exists i :: FirstRuleAt(rules, instrumentId, i) && rules[i] == rule
  {
    if rules != [] {
      if rules[0].instrumentId == instrumentId {
        assert FirstRuleAt(rules, instrumentId, 0);
      } else {
        RuleIsFirst(rules[1..], instrumentId);
        if FindRule(rules, instrumentId).Some? {
          var i :| FirstRuleAt(rules[1..], instrumentId, i) && rules[1..][i] == FindRule(rules, instrumentId).value;
          assert FirstRuleAt(rules, instrumentId, i + 1);
        }
      }
    }
  }

  /**
   * When a fee is charged and what stands in the way otherwise: nothing newly
   * filled, no rule for the instrument, no currency for it, or another one.
   */
  lemma ChargedExactly(schedule: FeeSchedule, instrumentId: Id, currency: Option<Currency>, before: real, after: real)
    requires schedule.Valid()
    ensures var r := AssessFee(schedule, instrumentId, currency, before, after);
            if !(0.0 <= before < after) then r == NotCharged(InvalidInput)
            else match schedule
              case ZeroFees => r == Charged(Fee(0.0, None))
              case PerUnit(rules) =>
                && (r == NotCharged(RuleMissing) <==> forall rule :: rule in rules ==> rule.instrumentId != instrumentId)
                && forall i :: FirstRuleAt(rules, instrumentId, i) ==>
                     && (r == NotCharged(CurrencyMissing) <==> currency == None)
                     && (r == NotCharged(FeeCurrencyMismatch) <==> currency.Some? && currency.value != rules[i].currency)
                     && (r.Charged? <==> currency == Some(rules[i].currency))
  {
    if schedule.PerUnit? {
      RuleIsFirst(schedule.rules, instrumentId);
      forall i, j | FirstRuleAt(schedule.rules, instrumentId, i) && FirstRuleAt(schedule.rules, instrumentId, j) ensures i == j {
      }
    }
  }

  lemma NothingFilledNothingPaid(rule: FeeRule)
    requires rule.Valid()
    ensures CumulativeFee(rule, 0.0) == 0.0
  {
    assert ExactFee(rule, 0.0) == 0.0 && Quanta(0.0, rule.quantum) == 0.0;
  }

  // ---- Positions -------------------------------------------------------------------------

  /** Run, strategy, account and instrument: the position id is derived from exactly these. */
  datatype PositionKey = PositionKey(run: Id, strategyId: Id, accountId: Id, instrumentId: Id)

  datatype PaperFill = PaperFill(key: PositionKey, side: Side, quantity: real, price: real, fee: real,
                                 feeCurrency: Option<Currency>, occurredAt: Time)
  {
    predicate Valid() {
      quantity > 0.0 && price > 0.0 && fee >= 0.0 && (fee == 0.0 <==> feeCurrency.None?)
    }
  }

  datatype PaperPosition = PaperPosition(key: PositionKey, net: real, average: Option<real>, fees: real,
                                         feeCurrency: Option<Currency>, version: nat, updatedAt: Time)
  {
    predicate Valid() {
      && (average.Some? ==> average.value > 0.0) && fees >= 0.0 && version >= 1
      && (net == 0.0 <==> average.None?)
      && (fees == 0.0 <==> feeCurrency.None?)
    }
  }

  datatype LedgerError = KeyMismatch | CurrencyMismatch | TemporalOrder

  datatype LedgerResult = Moved(position: PaperPosition) | Refused(error: LedgerError)

  function Delta(f: PaperFill): real {
    if f.side.Buy? then f.quantity else -f.quantity
  }

  function FeeOf(f: PaperFill): real {
    f.fee
  }

  function Abs(x: real): real {
    if x < 0.0 then -x else x
  }

  function NewAverage(net: real, average: Option<real>, delta: real, price: real): Option<real>
    requires net != 0.0 ==> average.Some?
  {
    var next := net + delta;
    if net == 0.0 then Some(price)
    else if (net > 0.0) == (delta > 0.0) then
      if next == 0.0 then None else Some((Abs(net) * average.value + Abs(delta) * price) / Abs(next))
    else if next == 0.0 then None
    else if (next > 0.0) == (net > 0.0) then average
    else Some(price)
  }

  function ApplyFill(previous: Option<PaperPosition>, f: PaperFill): LedgerResult
    requires f.Valid() && (previous.Some? ==> previous.value.Valid())
  {
    if previous.Some? && previous.value.key != f.key then Refused(KeyMismatch)
    else if previous.Some? && f.occurredAt < previous.value.updatedAt then Refused(TemporalOrder)
    else
      var currency := if previous.Some? then previous.value.feeCurrency else None;
      if f.fee != 0.0 && currency.Some? && currency != f.feeCurrency then Refused(CurrencyMismatch)
      else
        var net := if previous.Some? then previous.value.net else 0.0;
        var average := if previous.Some? then previous.value.average else None;
        var fees := if previous.Some? then previous.value.fees else 0.0;
        Moved(PaperPosition(
          f.key, net + Delta(f), NewAverage(net, average, Delta(f), f.price), fees + f.fee,
          if f.fee != 0.0 && currency.None? then f.feeCurrency else currency,
          if previous.Some? then previous.value.version + 1 else 1, f.occurredAt))
  }

  /** Adding in the same direction averages by quantity, between the old average and the new price. */
  lemma WeightedBetween(a: real, p: real, b: real, q: real)
    requires a > 0.0 && b > 0.0
    ensures var w := (a * p + b * q) / (a + b);
            && (p <= q ==> p <= w <= q) && (q <= p ==> q <= w <= p)
  {
    var w := (a * p + b * q) / (a + b);
    assert w * (a + b) == a * p + b * q;
    if p <= q {
      WeightedAbove(a, p, b, q, w);
    } else {
      WeightedAbove(b, q, a, p, w);
    }
  }

  lemma WeightedAbove(a: real, p: real, b: real, q: real, w: real)
    requires a > 0.0 && b > 0.0 && p <= q && w * (a + b) == a * p + b * q
    ensures p <= w <= q
  {
    assert (w - p) * (a + b) == b * (q - p);
    assert (q - w) * (a + b) == a * (q - p);
    NonnegativeProduct(a, q - p);
    NonnegativeProduct(b, q - p);
    NonnegativeFactor(w - p, a + b, b * (q - p));
    NonnegativeFactor(q - w, a + b, a * (q - p));
  }

  lemma NonnegativeProduct(a: real, b: real)
    requires a >= 0.0 && b >= 0.0
    ensures a * b >= 0.0
  {
  }

  lemma NonnegativeFactor(x: real, scale: real, product: real)
    requires scale > 0.0 && product >= 0.0 && x * scale == product
    ensures x >= 0.0
  {
  }

  /** The average of a live position lies between the old average and the fill price, or is one of them. */
  lemma AverageBetween(net: real, average: Option<real>, f: PaperFill)
    requires f.Valid() && (net == 0.0 <==> average.None?)
    ensures var next := NewAverage(net, average, Delta(f), f.price);
            && (net + Delta(f) == 0.0 <==> next.None?)
            && (next.Some? && net != 0.0 && (net > 0.0) == (Delta(f) > 0.0) ==>
                  && (average.value <= f.price ==> average.value <= next.value <= f.price)
                  && (f.price <= average.value ==> f.price <= next.value <= average.value))
  {
    if net != 0.0 && (net > 0.0) == (Delta(f) > 0.0) {
      assert Abs(net + Delta(f)) == Abs(net) + Abs(Delta(f));
      WeightedBetween(Abs(net), average.value, Abs(Delta(f)), f.price);
    }
  }

  /** Applying a valid fill never builds an invalid position. */
  lemma PositionsStayValid(previous: Option<PaperPosition>, f: PaperFill)
    requires f.Valid() && (previous.Some? ==> previous.value.Valid())
    ensures var r := ApplyFill(previous, f);
            r.Moved? ==> r.position.Valid()
  {
    var net := if previous.Some? then previous.value.net else 0.0;
    var average := if previous.Some? then previous.value.average else None;
    AverageBetween(net, average, f);
  }

  /** The position after some fills; the first refusal ends the fold. */
  function Fold(fills: seq<PaperFill>): (r: Option<LedgerResult>)
    requires forall f :: f in fills ==> f.Valid()
    ensures r.Some? && r.value.Moved? ==> r.value.position.Valid()
    ensures r.None? <==> fills == []
  {
    if fills == [] then None
    else
      var n := |fills| - 1;
      var earlier := Fold(fills[..n]);
      if earlier.Some? && earlier.value.Refused? then earlier
      else
        var previous := if earlier.Some? then Some(earlier.value.position) else None;
        PositionsStayValid(previous, fills[n]);
        Some(ApplyFill(previous, fills[n]))
  }

  // ---- What a sequence of fills adds up to -----------------------------------------------------

  predicate OneKey(fills: seq<PaperFill>) {
    forall i :: 0 <= i < |fills| ==> fills[i].key == fills[0].key
  }

  predicate InTimeOrder(fills: seq<PaperFill>) {
    forall i :: 0 <= i < |fills| - 1 ==> fills[i].occurredAt <= fills[i + 1].occurredAt
  }

  predicate OneCurrency(fills: seq<PaperFill>) {
    forall i, j :: 0 <= i < |fills| && 0 <= j < |fills| && fills[i].feeCurrency.Some? && fills[j].feeCurrency.Some?
      ==> fills[i].feeCurrency == fills[j].feeCurrency
  }

  predicate Accepted(fills: seq<PaperFill>)
    requires forall f :: f in fills ==> f.Valid()
  {
    Fold(fills).Some? ==> Fold(fills).value.Moved?
  }

  /** The folded position, its totals and its bookkeeping, in terms of the fills alone. */
  ghost predicate AddsUp(fills: seq<PaperFill>, p: PaperPosition)
    requires fills != []
  {
    && p.net == Sum(Delta, fills) && p.fees == Sum(FeeOf, fills) && p.version == |fills|
    && p.key == fills[0].key && p.updatedAt == fills[|fills| - 1].occurredAt
    && (forall i :: 0 <= i < |fills| && fills[i].feeCurrency.Some? ==> p.feeCurrency == fills[i].feeCurrency)
    && (p.feeCurrency.Some? ==> exists i :: 0 <= i < |fills| && fills[i].feeCurrency == p.feeCurrency)
  }

  lemma FoldStep(fills: seq<PaperFill>)
    requires fills != [] && forall f :: f in fills ==> f.Valid()
    requires forall f :: f in fills[..|fills| - 1] ==> f.Valid()
    requires Accepted(fills[..|fills| - 1])
    ensures var n := |fills| - 1;
            var earlier := Fold(fills[..n]);
            var previous := if earlier.Some? then Some(earlier.value.position) else None;
            (previous.Some? ==> previous.value.Valid()) && Fold(fills) == Some(ApplyFill(previous, fills[n]))
  {
  }

  /** One accepted fill carries the totals over. */
  lemma AddsUpStep(fills: seq<PaperFill>, previous: Option<PaperPosition>, f: PaperFill)
    requires f.Valid() && (forall g :: g in fills ==> g.Valid()) && (previous.None? <==> fills == [])
    requires previous.Some? ==> previous.value.Valid() && AddsUp(fills, previous.value)
    requires ApplyFill(previous, f).Moved?
    ensures AddsUp(fills + [f], ApplyFill(previous, f).position)
  {
    var all, p := fills + [f], ApplyFill(previous, f).position;
    SumAppend(Delta, fills, f);
    SumAppend(FeeOf, fills, f);
    if p.feeCurrency.Some? {
      if previous.Some? && previous.value.feeCurrency.Some? {
        var i :| 0 <= i < |fills| && fills[i].feeCurrency == previous.value.feeCurrency;
        assert all[i].feeCurrency == p.feeCurrency;
      } else {
        assert all[|fills|].feeCurrency == p.feeCurrency;
      }
    }
  }

  /** Folding fills through the ledger: the net is the signed sum, the fees are the sum of the fees. */
  lemma {:induction false} FoldAddsUp(fills: seq<PaperFill>)
    requires fills != [] && forall f :: f in fills ==> f.Valid()
    requires Fold(fills).value.Moved?
    ensures AddsUp(fills, Fold(fills).value.position)
  {
    var n := |fills| - 1;
    assert fills == fills[..n] + [fills[n]];
    FoldStep(fills);
    if n == 0 {
      AddsUpStep([], None, fills[0]);
      assert [] + [fills[0]] == fills;
    } else {
      FoldAddsUp(fills[..n]);
      AddsUpStep(fills[..n], Some(Fold(fills[..n]).value.position), fills[n]);
    }
  }

  /** The ledger accepts exactly the fills of one key, in time order, whose fees name one currency. */
  lemma {:induction false} AcceptedExactly(fills: seq<PaperFill>)
    requires forall f :: f in fills ==> f.Valid()
    ensures Accepted(fills) <==> OneKey(fills) && InTimeOrder(fills) && OneCurrency(fills)
  {
    if fills != [] {
      var n := |fills| - 1;
      AcceptedExactly(fills[..n]);
      Prefixes(fills);
      if Accepted(fills[..n]) {
        FoldStep(fills);
        if n > 0 {
          FoldAddsUp(fills[..n]);
          LastFill(fills, Fold(fills[..n]).value.position);
        }
      }
    }
  }

  lemma Prefixes(fills: seq<PaperFill>)
    requires fills != []
    ensures OneKey(fills) && InTimeOrder(fills) && OneCurrency(fills)
            ==> OneKey(fills[..|fills| - 1]) && InTimeOrder(fills[..|fills| - 1]) && OneCurrency(fills[..|fills| - 1])
  {
  }

  /** Whether the last fill is accepted, given the position of the fills before it. */
  lemma LastFill(fills: seq<PaperFill>, p: PaperPosition)
    requires |fills| > 1 && (forall f :: f in fills ==> f.Valid()) && p.Valid() && AddsUp(fills[..|fills| - 1], p)
    requires OneKey(fills[..|fills| - 1]) && InTimeOrder(fills[..|fills| - 1]) && OneCurrency(fills[..|fills| - 1])
    ensures ApplyFill(Some(p), fills[|fills| - 1]).Moved? <==> OneKey(fills) && InTimeOrder(fills) && OneCurrency(fills)
  {
    var n := |fills| - 1;
    var f := fills[n];
    assert f in fills;
    assert p.key == fills[0].key && p.updatedAt == fills[n - 1].occurredAt;
    LastCurrency(fills, p);
  }

  lemma LastCurrency(fills: seq<PaperFill>, p: PaperPosition)
    requires |fills| > 1 && AddsUp(fills[..|fills| - 1], p) && OneCurrency(fills[..|fills| - 1])
    ensures var f := fills[|fills| - 1];
            OneCurrency(fills) <==> !(f.feeCurrency.Some? && p.feeCurrency.Some? && p.feeCurrency != f.feeCurrency)
  {
    var n := |fills| - 1;
    var f := fills[n];
    if p.feeCurrency.Some? && f.feeCurrency.Some? {
      var i :| 0 <= i < n && fills[..n][i].feeCurrency == p.feeCurrency;
      assert fills[i].feeCurrency == p.feeCurrency;
    }
    forall i | 0 <= i < n && fills[i].feeCurrency.Some? ensures p.feeCurrency == fills[i].feeCurrency {
      assert fills[..n][i] == fills[i];
    }
  }

  // ---- The average open price ------------------------------------------------------------------

  /** The prices of the fills that opened or added to the position since it was last flat or flipped. */
  function BuildingPrices(fills: seq<PaperFill>): seq<real> {
    if fills == [] then []
    else
      var n := |fills| - 1;
      var net, delta := Sum(Delta, fills[..n]), Delta(fills[n]);
      if net == 0.0 then [fills[n].price]
      else if (net > 0.0) == (delta > 0.0) then BuildingPrices(fills[..n]) + [fills[n].price]
      else if net + delta == 0.0 then []
      else if (net + delta > 0.0) == (net > 0.0) then BuildingPrices(fills[..n])
      else [fills[n].price]
  }

  predicate Within(average: real, prices: seq<real>) {
    && (exists p :: p in prices && p <= average)
    && (exists p :: p in prices && average <= p)
  }

  lemma WithinMore(average: real, prices: seq<real>, price: real, next: real)
    requires Within(average, prices)
    requires (average <= price && average <= next <= price) || (price <= average && price <= next <= average)
    ensures Within(next, prices + [price])
  {
    var low :| low in prices && low <= average;
    var high :| high in prices && average <= high;
    var all := prices + [price];
    assert low in all && high in all && price in all;
  }

  /** The average open price stays within the prices of the fills that built the position. */
  lemma {:induction false} AverageWithinBuildingPrices(fills: seq<PaperFill>)
    requires fills != [] && forall f :: f in fills ==> f.Valid()
    requires Fold(fills).value.Moved?
    ensures var p := Fold(fills).value.position;
            p.average.Some? ==> Within(p.average.value, BuildingPrices(fills))
  {
    var n := |fills| - 1;
    FoldStep(fills);
    if n == 0 {
      assert fills[0].price in [fills[0].price];
    } else {
      AverageWithinBuildingPrices(fills[..n]);
      FoldAddsUp(fills[..n]);
      AverageStep(fills, Fold(fills[..n]).value.position);
    }
  }

  lemma AverageStep(fills: seq<PaperFill>, p: PaperPosition)
    requires |fills| > 1 && p.Valid() && fills[|fills| - 1].Valid()
    requires p.net == Sum(Delta, fills[..|fills| - 1])
    requires p.average.Some? ==> Within(p.average.value, BuildingPrices(fills[..|fills| - 1]))
    ensures var next := NewAverage(p.net, p.average, Delta(fills[|fills| - 1]), fills[|fills| - 1].price);
            next.Some? ==> Within(next.value, BuildingPrices(fills))
  {
    var n := |fills| - 1;
    var f := fills[n];
    AverageBetween(p.net, p.average, f);
    assert f.price in [f.price];
    if p.net != 0.0 && (p.net > 0.0) == (Delta(f) > 0.0) {
      WithinMore(p.average.value, BuildingPrices(fills[..n]), f.price, NewAverage(p.net, p.average, Delta(f), f.price).value);
    }
  }

  // ---- What one more fill does to an open position -------------------------------------------------

  /** What a fill adds to the signed net: bought quantities count up, sold ones down. */
  function SignedBy(f: PaperFill): real {
    match f.side
    case Buy => f.quantity
    case Sell => -f.quantity
  }

  function SizeOf(net: real): real {
    if net >= 0.0 then net else -net
  }

  /** Both are long or both are short. */
  predicate SameWay(a: real, b: real) {
    (a > 0.0 && b > 0.0) || (a < 0.0 && b < 0.0)
  }

  /** What an open position cost, at its average price. */
  function CostOf(p: PaperPosition): real
    requires p.average.Some?
  {
    p.average.value * SizeOf(p.net)
  }

  /** How a fill moves the position before it, if there is one. */
  predicate Moves(previous: Option<PaperPosition>, f: PaperFill, p: PaperPosition) {
    var net := if previous.Some? then previous.value.net else 0.0;
    && p.net == net + SignedBy(f)
    && if net == 0.0 then p.average == Some(f.price)
       else if SameWay(net, SignedBy(f)) then
         previous.value.average.Some? && p.average.Some? && CostOf(p) == CostOf(previous.value) + f.quantity * f.price
       else if f.quantity < SizeOf(net) then p.average == previous.value.average
       else if f.quantity == SizeOf(net) then p.average == None
       else p.average == Some(f.price)
  }

  /**
   * An adding fill raises the cost of the position by exactly what it cost, one
   * that reduces leaves the average price as it was, one that opens or flips
   * the position sets it to its price, and one that flattens it leaves none.
   */
  lemma FillMoves(previous: Option<PaperPosition>, f: PaperFill)
    requires f.Valid() && (previous.Some? ==> previous.value.Valid())
    requires ApplyFill(previous, f).Moved?
    ensures Moves(previous, f, ApplyFill(previous, f).position)
  {
    var p := ApplyFill(previous, f).position;
    if previous.Some? && SameWay(previous.value.net, SignedBy(f)) {
      var net, average := previous.value.net, previous.value.average.value;
      assert SizeOf(p.net) == SizeOf(net) + f.quantity;
      QuotientTimes(SizeOf(net) * average + f.quantity * f.price, SizeOf(p.net));
    }
  }

  lemma QuotientTimes(cost: real, size: real)
    requires size > 0.0
    ensures cost / size * size == cost
  {
  }

  /** The position that the fills before the last one have left. */
  function Before(fills: seq<PaperFill>): Option<PaperPosition>
    requires fills != [] && forall f :: f in fills ==> f.Valid()
  {
    var earlier := Fold(fills[..|fills| - 1]);
    if earlier.Some? && earlier.value.Moved? then Some(earlier.value.position) else None
  }

  /** So does every fill of an accepted sequence, the last one first. */
  lemma FoldMoves(fills: seq<PaperFill>)
    requires fills != [] && (forall f :: f in fills ==> f.Valid()) && Fold(fills).value.Moved?
    ensures Moves(Before(fills), fills[|fills| - 1], Fold(fills).value.position)
    ensures |fills| > 1 ==> Before(fills).Some?
  {
    FoldStep(fills);
    FillMoves(Before(fills), fills[|fills| - 1]);
  }

  function Spent(f: PaperFill): real {
    f.quantity * f.price
  }

  function SizeOfFill(f: PaperFill): real {
    f.quantity
  }

  /** Fills of one direction leave a position of their whole quantity at their whole cost. */
  lemma {:induction false} OneDirectionCost(fills: seq<PaperFill>, side: Side)
    requires fills != [] && (forall f :: f in fills ==> f.Valid() && f.side == side) && Fold(fills).value.Moved?
    ensures var p := Fold(fills).value.position;
            && p.average.Some? && CostOf(p) == Sum(Spent, fills)
            && p.net != 0.0 && p.net == (if side == Buy then Sum(SizeOfFill, fills) else -Sum(SizeOfFill, fills))
  {
    var n := |fills| - 1;
    FoldStep(fills);
    FoldMoves(fills);
    assert fills[..n] + [fills[n]] == fills;
    SumAppend(Spent, fills[..n], fills[n]);
    SumAppend(SizeOfFill, fills[..n], fills[n]);
    if n > 0 {
      OneDirectionCost(fills[..n], side);
      SumNonnegative(SizeOfFill, fills[..n]);
    } else {
      OneFillCost(fills[0], Fold(fills).value.position);
    }
  }

  lemma OneFillCost(f: PaperFill, p: PaperPosition)
    requires f.Valid() && Moves(None, f, p)
    ensures p.average.Some? && CostOf(p) == Spent(f)
  {
  }

  /** A fill is refused for the first thing that does not fit: another key, an earlier time, another fee currency. */
  lemma RefusedFor(previous: Option<PaperPosition>, f: PaperFill)
    requires f.Valid() && (previous.Some? ==> previous.value.Valid())
    ensures var r := ApplyFill(previous, f);
            match previous
            case None => r.Moved?
            case Some(p) =>
              var earlier := f.occurredAt < p.updatedAt;
              var otherCurrency := f.feeCurrency.Some? && p.feeCurrency.Some? && f.feeCurrency != p.feeCurrency;
              && (r == Refused(KeyMismatch) <==> f.key != p.key)
              && (r == Refused(TemporalOrder) <==> f.key == p.key && earlier)
              && (r == Refused(CurrencyMismatch) <==> f.key == p.key && !earlier && otherCurrency)
  {
  }
}
