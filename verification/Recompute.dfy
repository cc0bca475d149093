/** Which published rounds the engine can have computed (contributor/verify.go and engine.go). */
module Recompute {
  import opened Allocation
  import opened Engine
  import opened Months
  import opened Policy
  import opened Results
  import opened Sums
  import opened Verify

  // The engine returns round r, but for what its closing records, on these receipts and awards.
  ghost predicate Returns(p: Program, r: Round, receipts: seq<Receipt>, awards: seq<Award>) {
    var computed := ComputeRoundOf(p, r.month, receipts, awards, r.carryforwardCents);
    computed.Ok? && computed.value.0 == r.(closedAt := None, closedBy := "")
  }

  // What the engine asks for and the verification of a round does not.
  ghost predicate WithinProgram(p: Program, r: Round) {
    && p.calculationVersion == CALCULATION_VERSION
    && !Before(r.month, p.effectiveFrom)
    && (forall e | e in r.entitlements :: e.account != "")
    // An award is active in months before its expiration, so never in December 9999.
    && (r.entitlements != [] ==> r.month != FromIndex(MONTH_COUNT - 1))
  }

  // ----- every computed round is within its program

  lemma {:induction false} SomeAwardCounts(awards: seq<Award>, m: Month)
    requires CreditsFrom(awards, m) != map[]
    ensures exists a :: a in awards && Counts(a, m)
  {
    var n := |awards| - 1;
    assert awards[n] in awards;
    if !Counts(awards[n], m) {
      SomeAwardCounts(awards[..n], m);
      var a :| a in awards[..n] && Counts(a, m);
      assert a in awards;
    }
  }

  lemma ActiveBeforeTheEnd(a: Award, m: Month)
    requires Valid(m) && a.IsValid() && a.ActiveIn(m)
    ensures m != FromIndex(MONTH_COUNT - 1)
  {
    BeforeIsChronological(m, a.expiration);
    ValidateIsParse(a.expiration);
    ParseFromIndex(MONTH_COUNT - 1);
  }

  lemma ReturnedIsWithin(p: Program, r: Round, receipts: seq<Receipt>, awards: seq<Award>)
    requires Returns(p, r, receipts, awards)
    ensures Reproducible(p, r) && WithinProgram(p, r)
  {
    var (round, os) := ComputeRoundOf(p, r.month, receipts, awards, r.carryforwardCents).value;
    RoundAddsUp(p, r.month, receipts, awards, r.carryforwardCents, round, os);
    ComputedParts(p, r.month, receipts, awards, r.carryforwardCents, round, os);
    ComputedRoundsAreReproducible(
      p, r.month, receipts, awards, r.carryforwardCents, round, os, r.closedAt, r.closedBy);
    var credits := CreditsFrom(awards, r.month);
    AllocationListsCredits(Allocatable(round.poolCents), credits, round.entitlements);
    if credits != map[] {
      SomeAwardCounts(awards, r.month);
      var a :| a in awards && Counts(a, r.month);
      ActiveBeforeTheEnd(a, r.month);
    }
  }

  // ----- every reproducible round within its program is computed on some inputs

  // One receipt with the round's net amount.
  function NetReceipt(p: Program, r: Round): Receipt {
    var net := r.netReceiptsCents;
    Receipt("receipts", r.month, if net > 0 then net else 0,
            [Adjustment(Refund, if net < 0 then -net else 0)], p.currency)
  }

  function SplitsOf(ents: seq<Entitlement>): seq<Split> {
    seq(|ents|, i requires 0 <= i < |ents| => Split(ents[i].account, ents[i].credits))
  }

  // One award of the round's credits, active in its month only.
  function RoundAward(p: Program, r: Round): Award
    requires Valid(r.month)
  {
    Award("award", SplitsOf(r.entitlements), r.month, Next(r.month), ["evidence"], p.version, Approved)
  }

  function AwardsOf(p: Program, r: Round): seq<Award>
    requires Valid(r.month)
  {
    if r.entitlements == [] then [] else [RoundAward(p, r)]
  }

  lemma {:induction false} NetReceiptNets(p: Program, r: Round)
    requires p.IsValid() && Valid(r.month)
    ensures SumBy([NetReceipt(p, r)], NetOf()) == r.netReceiptsCents
    ensures ReceiptsError([NetReceipt(p, r)], p, r.month).None?
  {
    var receipt := NetReceipt(p, r);
    assert [receipt][..0] == [] && receipt.adjustments[..0] == [];
    assert [receipt][1..] == [];
    assert SumBy(receipt.adjustments, DeductionOf()) == receipt.adjustments[0].amountCents;
    assert NetOf()(receipt) == r.netReceiptsCents;
  }

  lemma {:induction false} SplitsRecord(ents: seq<Entitlement>)
    requires DistinctAccounts(ents)
    ensures AddSplits(map[], SplitsOf(ents)) == CreditMap(ents)
  {
    if ents != [] {
      var n := |ents| - 1;
      assert SplitsOf(ents)[..n] == SplitsOf(ents[..n]);
      SplitsRecord(ents[..n]);
      CreditMapAt(ents[..n]);
      assert forall i | 0 <= i < n :: AccountSeq(ents[..n])[i] == ents[i].account;
    }
  }

  lemma SoleAward(a: Award, m: Month)
    requires a.IsValid() && Counts(a, m)
    ensures ActiveCreditsOf([a], m) == Some(AddSplits(map[], a.splits))
  {
    assert [a][..0] == [];
    assert CreditsFrom([a][..0], m) == map[];
  }

  lemma AwardsRecord(p: Program, r: Round)
    requires Reproducible(p, r) && WithinProgram(p, r)
    ensures ActiveCreditsOf(AwardsOf(p, r), r.month) == Some(CreditMap(r.entitlements))
  {
    if r.entitlements != [] {
      var a := RoundAward(p, r);
      AscendingIsDistinct(r.entitlements);
      SplitsRecord(r.entitlements);
      OneMonthAward(p, r);
      SoleAward(a, r.month);
      assert a.splits == SplitsOf(r.entitlements);
    } else {
      assert CreditMap(r.entitlements) == map[];
    }
  }

  lemma OneMonthAward(p: Program, r: Round)
    requires Reproducible(p, r) && WithinProgram(p, r) && r.entitlements != []
    ensures RoundAward(p, r).IsValid() && Counts(RoundAward(p, r), r.month)
  {
    var a, ents := RoundAward(p, r), r.entitlements;
    AscendingIsDistinct(ents);
    NextIsValid(r.month);
    BeforeIsChronological(r.month, r.month);
    BeforeIsChronological(r.month, a.expiration);
    forall i | 0 <= i < |a.splits| ensures a.splits[i].account != "" && a.splits[i].credits > 0 {
      assert ents[i] in ents;
    }
  }

  lemma NextIsValid(m: Month)
    requires Valid(m) && m != FromIndex(MONTH_COUNT - 1)
    ensures Valid(Next(m)) && Index(Next(m)) == Index(m) + 1
  {
    AddIsAddition(m, 1);
    ValidateIsParse(m);
    ParseFromIndex(MONTH_COUNT - 1);
  }

  lemma RecordedTotal(p: Program, r: Round)
    requires Reproducible(p, r)
    ensures AllocationOf(Allocatable(r.poolCents), CreditMap(r.entitlements)) == Ok(r.entitlements)
    ensures TotalCreditsOf(CreditMap(r.entitlements)) == r.totalCredits
  {
    AscendingIsDistinct(r.entitlements);
    ReallocationReproduces(Allocatable(r.poolCents), r.entitlements);
    RecordedCredits(r.entitlements);
    TotalIsRecorded(Allocatable(r.poolCents), CreditMap(r.entitlements), r.entitlements);
  }

  // What the engine returns when it has no error to report.
  lemma {:induction false} ReturnsShareOut(p: Program, m: Month, receipts: seq<Receipt>, awards: seq<Award>, carry: int,
                        net: int, credits: Credits, ents: seq<Entitlement>)
    requires ProgramError(p, m).None? && ReceiptsError(receipts, p, m).None?
    requires ActiveCreditsOf(awards, m) == Some(credits) && SumBy(receipts, NetOf()) == net
    requires AllocationOf(Allocatable(carry + PoolShareCents(p.poolBps, net)), credits) == Ok(ents)
    ensures ComputeRoundOf(p, m, receipts, awards, carry).Ok?
    ensures ComputeRoundOf(p, m, receipts, awards, carry).value.0
              == RoundOf(p, m, net, PoolShareCents(p.poolBps, net), credits, carry, ents)
  {
  }

  lemma WithinIsReturned(p: Program, r: Round)
    requires Reproducible(p, r) && WithinProgram(p, r)
    ensures Returns(p, r, [NetReceipt(p, r)], AwardsOf(p, r))
  {
    NetReceiptNets(p, r);
    AwardsRecord(p, r);
    RecordedTotal(p, r);
    ReturnsShareOut(p, r.month, [NetReceipt(p, r)], AwardsOf(p, r), r.carryforwardCents,
                    r.netReceiptsCents, CreditMap(r.entitlements), r.entitlements);
  }

  // The rounds that the engine returns on some receipts and awards are exactly the reproducible
  // ones within their program.
  lemma ReturnedIff(p: Program, r: Round)
    ensures (exists receipts, awards :: Returns(p, r, receipts, awards)) <==>
            Reproducible(p, r) && WithinProgram(p, r)
  {
    if receipts, awards :| Returns(p, r, receipts, awards) {
      ReturnedIsWithin(p, r, receipts, awards);
    }
    if Reproducible(p, r) && WithinProgram(p, r) {
      WithinIsReturned(p, r);
    }
  }

  // A round of nothing, for a month before the program takes effect, is accepted by its
  // verification though the engine computes no such round.
  lemma EarlyRoundIsAccepted(p: Program, m: Month)
    requires p.IsValid() && Valid(m) && Before(m, p.effectiveFrom)
    ensures var r := Round(m, p.version, CALCULATION_VERSION, p.currency, 0, 0, 0, 0, [], 0, None, "");
            Reproducible(p, r) && !exists receipts, awards :: Returns(p, r, receipts, awards)
  {
    var r := Round(m, p.version, CALCULATION_VERSION, p.currency, 0, 0, 0, 0, [], 0, None, "");
    assert PoolShareCents(p.poolBps, 0) == 0;
    ReturnedIff(p, r);
  }

  // Such programs and months exist: a program from the second month of year 0 on, and the first.
  lemma SomeEarlyRound() returns (p: Program, m: Month)
    ensures p.IsValid() && Valid(m) && Before(m, p.effectiveFrom)
  {
    m := FromIndex(0);
    ParseFromIndex(0);
    AddIsAddition(m, 1);
    p := Program("v1", "USD", 10000, 1, 30, CALCULATION_VERSION, Next(m));
    BeforeIsChronological(m, Next(m));
  }
}
