/** contributor/program.go, award.go and receipt.go: the frozen inputs of a round. */
module Policy {
  import opened Months
  import opened Sums

  datatype Program = Program(
    version: string, currency: string, poolBps: int, creditDurationRounds: int,
    payoutDueDays: int, calculationVersion: int, effectiveFrom: Month)
  {
    predicate IsValid() {
      && version != "" && currency != ""
      && 0 < poolBps <= 10000 && creditDurationRounds > 0 && payoutDueDays > 0
      && Valid(effectiveFrom)
    }

    function ExpirationMonth(activation: Month): Month
      requires Valid(activation)
    {
      Add(activation, creditDurationRounds)
    }
  }

  datatype Split = Split(account: string, credits: int)

  datatype AwardStatus = Proposed | Approved | Rejected | UnknownStatus

  datatype Award = Award(
    id: string, splits: seq<Split>, activation: Month, expiration: Month,
    evidence: seq<string>, policyVersion: string, status: AwardStatus)
  {
    predicate IsValid() {
      && splits != []
      && (forall i | 0 <= i < |splits| :: splits[i].account != "" && splits[i].credits > 0)
      && (forall i, j | 0 <= i < j < |splits| :: splits[i].account != splits[j].account)
      && Valid(activation) && Valid(expiration) && Before(activation, expiration)
      && evidence != [] && policyVersion != "" && !status.UnknownStatus?
    }

    predicate ActiveIn(m: Month) {
      !Before(m, activation) && Before(m, expiration)
    }
  }

  datatype AdjustmentKind = Tax | Refund | PassThrough | UnknownKind

  datatype Adjustment = Adjustment(kind: AdjustmentKind, amountCents: int)

  datatype Receipt = Receipt(
    source: string, month: Month, grossCents: int, adjustments: seq<Adjustment>, currency: string)
  {
    predicate IsValid() {
      && source != "" && Valid(month) && grossCents >= 0 && currency != ""
      && forall i | 0 <= i < |adjustments| ::
           !adjustments[i].kind.UnknownKind? && adjustments[i].amountCents >= 0
    }
  }

  function DeductionOf(): Adjustment -> int {
    (a: Adjustment) => a.amountCents
  }

  // A receipt's gross amount less all its adjustments.
  function NetOf(): Receipt -> int {
    (r: Receipt) => r.grossCents - SumBy(r.adjustments, DeductionOf())
  }

  /** Receipt.NetCents. */
  method NetCents(r: Receipt) returns (net: int)
    ensures net == NetOf()(r)
  {
    net := r.grossCents;
    for i := 0 to |r.adjustments|
      invariant net == r.grossCents - SumBy(r.adjustments[..i], DeductionOf())
    {
      SumBySnoc(r.adjustments, DeductionOf(), i);
      net := net - r.adjustments[i].amountCents;
    }
    assert r.adjustments[..|r.adjustments|] == r.adjustments;
  }

  // Every adjustment is deducted, whatever its kind, and nothing else is.
  lemma EveryAdjustmentIsDeducted(r: Receipt, a: Adjustment)
    ensures NetOf()(r.(adjustments := [])) == r.grossCents
    ensures NetOf()(r.(adjustments := r.adjustments + [a])) == NetOf()(r) - a.amountCents
  {
    SumByAppend(r.adjustments, a, DeductionOf());
  }

  // An award that expires at the program's expiration month is active in exactly the
  // creditDurationRounds months from its activation on, when they end by December 9999.
  lemma AwardLastsItsDuration(p: Program, a: Award, m: Month)
    requires p.IsValid() && Valid(a.activation) && Valid(m)
    requires a.expiration == p.ExpirationMonth(a.activation)
    requires Index(a.activation) + p.creditDurationRounds < MONTH_COUNT
    ensures a.ActiveIn(m) <==>
            Index(a.activation) <= Index(m) < Index(a.activation) + p.creditDurationRounds
  {
    AddIsAddition(a.activation, p.creditDurationRounds);
    BeforeIsChronological(m, a.activation);
    BeforeIsChronological(m, a.expiration);
  }

  // An expiration month past year 9999 does not validate, so neither does the award.
  lemma AwardPastYear9999IsInvalid(p: Program, a: Award)
    requires p.IsValid() && Valid(a.activation)
    requires a.expiration == p.ExpirationMonth(a.activation)
    ensures a.IsValid() ==> Index(a.activation) + p.creditDurationRounds < MONTH_COUNT
  {
    AddIsAddition(a.activation, p.creditDurationRounds);
  }
}
