/** contributor/verify.go: recomputing a published round from its frozen inputs. */
module Verify {
  import opened Allocation
  import opened Engine
  import opened Lex
  import opened Months
  import opened Policy
  import opened Results
  import opened Shares
  import opened Sums

  datatype Verdict =
    | Accepted
    | BadProgram | BadMonth | WrongPolicy | WrongCalculation | CurrencyDiffers | PoolDiffers
    | DuplicateAccount | CreditsDiffer | CannotAllocate | EntitlementsDiffer | UnallocatedDiffers

  function CreditSeq(ents: seq<Entitlement>): seq<int> {
    seq(|ents|, i requires 0 <= i < |ents| => ents[i].credits)
  }

  function AmountSeq(ents: seq<Entitlement>): seq<int> {
    seq(|ents|, i requires 0 <= i < |ents| => ents[i].amountCents)
  }

  function AccountSeq(ents: seq<Entitlement>): seq<string> {
    seq(|ents|, i requires 0 <= i < |ents| => ents[i].account)
  }

  // Strictly ascending accounts with positive credits, paid by the largest-remainder method.
  ghost predicate Apportioned(pool: nat, ents: seq<Entitlement>) {
    && ByAccount(ents)
    && (forall i | 0 <= i < |ents| :: ents[i].credits > 0)
    && (ents != [] ==> Weights(CreditSeq(ents)) && AmountSeq(ents) == Allotted(pool, CreditSeq(ents)))
  }

  // What a published round must satisfy to be reproducible under program p.
  ghost predicate Reproducible(p: Program, r: Round) {
    && p.IsValid() && Valid(r.month)
    && r.policyVersion == p.version && r.calculationVersion == CALCULATION_VERSION
    && r.currency == p.currency
    && r.poolCents == r.carryforwardCents + PoolShareCents(p.poolBps, r.netReceiptsCents)
    && r.totalCredits == SumBy(r.entitlements, CreditsIn())
    && Apportioned(Allocatable(r.poolCents), r.entitlements)
    && r.unallocatedCents == r.poolCents - r.AllocatedCents()
  }

  // ----- the credits an entitlement list records

  function CreditMap(ents: seq<Entitlement>): Credits {
    if ents == [] then map[]
    else CreditMap(ents[..|ents| - 1])[ents[|ents| - 1].account := ents[|ents| - 1].credits]
  }

  ghost predicate DistinctAccounts(ents: seq<Entitlement>) {
    forall i, j | 0 <= i < j < |ents| :: ents[i].account != ents[j].account
  }

  lemma {:induction false} CreditMapAt(ents: seq<Entitlement>)
    ensures forall a :: a in CreditMap(ents) <==> a in AccountSeq(ents)
    ensures DistinctAccounts(ents) ==>
              forall i | 0 <= i < |ents| :: ents[i].account in CreditMap(ents)
                                            && CreditMap(ents)[ents[i].account] == ents[i].credits
  {
    if ents != [] {
      var n := |ents| - 1;
      CreditMapAt(ents[..n]);
      assert AccountSeq(ents) == AccountSeq(ents[..n]) + [ents[n].account];
      if DistinctAccounts(ents) {
        forall i | 0 <= i < |ents|
          ensures ents[i].account in CreditMap(ents)
                  && CreditMap(ents)[ents[i].account] == ents[i].credits
        {
          assert i < n ==> ents[..n][i] == ents[i] && ents[i].account != ents[n].account;
        }
      }
    }
  }

  lemma AscendingIsDistinct(ents: seq<Entitlement>)
    requires ByAccount(ents)
    ensures DistinctAccounts(ents)
  {
    forall i, j | 0 <= i < j < |ents| ensures ents[i].account != ents[j].account {
      LessTrichotomy(ents[i].account, ents[j].account);
    }
  }

  lemma EntitledReads(ents: seq<Entitlement>, accounts: seq<string>, amounts: seq<int>)
    requires accounts == AccountSeq(ents) && |amounts| == |ents|
    ensures Entitled(accounts, CreditSeq(ents), amounts) == ents <==> AmountSeq(ents) == amounts
  {
    var e := Entitled(accounts, CreditSeq(ents), amounts);
    forall i | 0 <= i < |ents| ensures e[i] == ents[i] <==> AmountSeq(ents)[i] == amounts[i] {
    }
  }

  lemma {:induction false} RecordedPositive(ents: seq<Entitlement>, a: string)
    requires DistinctAccounts(ents) && forall i | 0 <= i < |ents| :: ents[i].credits > 0
    requires a in CreditMap(ents)
    ensures CreditMap(ents)[a] > 0
  {
    CreditMapAt(ents);
    var i :| 0 <= i < |ents| && AccountSeq(ents)[i] == a;
    assert CreditMap(ents)[ents[i].account] == ents[i].credits;
  }

  lemma {:induction false} RecordedWeights(ents: seq<Entitlement>)
    requires DistinctAccounts(ents)
    ensures WeightsOf(AccountSeq(ents), CreditMap(ents)) == CreditSeq(ents)
  {
    CreditMapAt(ents);
    var w := WeightsOf(AccountSeq(ents), CreditMap(ents));
    forall i | 0 <= i < |ents| ensures w[i] == CreditSeq(ents)[i] {
      assert w[i] == CreditsOf(CreditMap(ents))(ents[i].account);
    }
  }

  lemma {:induction false} RecordedCredits(ents: seq<Entitlement>)
    requires ByAccount(ents) && forall i | 0 <= i < |ents| :: ents[i].credits > 0
    ensures Accounts(CreditMap(ents)) == AccountSeq(ents)
    ensures WeightsOf(AccountSeq(ents), CreditMap(ents)) == CreditSeq(ents)
    ensures forall a | a in CreditMap(ents) :: CreditMap(ents)[a] > 0
    ensures ents != [] ==> Weights(CreditSeq(ents))
  {
    AscendingIsDistinct(ents);
    CreditMapAt(ents);
    forall a | a in CreditMap(ents) ensures CreditMap(ents)[a] > 0 {
      RecordedPositive(ents, a);
    }
    AccountsUnique(AccountSeq(ents), CreditMap(ents));
    RecordedWeights(ents);
    if ents != [] {
      PositiveWeights(AccountSeq(ents), CreditMap(ents));
    }
  }

  // Reallocating over the recorded credits reproduces the entitlements exactly when they are
  // apportioned.
  lemma {:induction false} ReallocationReproduces(pool: nat, ents: seq<Entitlement>)
    requires DistinctAccounts(ents)
    ensures AllocationOf(pool, CreditMap(ents)) == Ok(ents) <==> Apportioned(pool, ents)
  {
    CreditMapAt(ents);
    if AllocationOf(pool, CreditMap(ents)) == Ok(ents) {
      AllocationListsCredits(pool, CreditMap(ents), ents);
      assert forall i | 0 <= i < |ents| :: CreditMap(ents)[ents[i].account] == ents[i].credits;
    }
    if ByAccount(ents) && forall i | 0 <= i < |ents| :: ents[i].credits > 0 {
      RecordedCredits(ents);
      if ents != [] {
        AllottedIsExact(pool, CreditSeq(ents));
        EntitledReads(ents, AccountSeq(ents), Allotted(pool, CreditSeq(ents)));
      }
    }
  }

  lemma RepeatedAccount(ents: seq<Entitlement>, i: nat)
    requires i < |ents| && DistinctAccounts(ents[..i])
    ensures ents[i].account in CreditMap(ents[..i]) ==> !DistinctAccounts(ents)
    ensures ents[i].account !in CreditMap(ents[..i]) ==> DistinctAccounts(ents[..i + 1])
    ensures CreditMap(ents[..i + 1]) == CreditMap(ents[..i])[ents[i].account := ents[i].credits]
  {
    CreditMapAt(ents[..i]);
    var accounts := AccountSeq(ents[..i]);
    assert ents[..i + 1][..i] == ents[..i];
    if ents[i].account in accounts {
      var k :| 0 <= k < i && accounts[k] == ents[i].account;
      assert ents[k].account == ents[i].account;
    } else {
      forall k | 0 <= k < i ensures ents[k].account != ents[i].account {
        assert accounts[k] == ents[k].account;
      }
    }
  }

  // Reads the recorded credits; a repeated account is reported.
  method ReadCredits(ents: seq<Entitlement>) returns (duplicate: bool, credits: Credits, total: int)
    ensures duplicate <==> !DistinctAccounts(ents)
    ensures !duplicate ==> credits == CreditMap(ents) && total == SumBy(ents, CreditsIn())
  {
    duplicate, credits, total := false, map[], 0;
    for i := 0 to |ents|
      invariant DistinctAccounts(ents[..i])
      invariant credits == CreditMap(ents[..i]) && total == SumBy(ents[..i], CreditsIn())
    {
      RepeatedAccount(ents, i);
      if ents[i].account in credits {
        return true, credits, total;
      }
      SumBySnoc(ents, CreditsIn(), i);
      credits := credits[ents[i].account := ents[i].credits];
      total := total + ents[i].credits;
    }
    assert ents[..|ents|] == ents;
  }

  // Whether two entitlement lists are equal, entry by entry.
  method SameEntitlements(ents: seq<Entitlement>, published: seq<Entitlement>) returns (same: bool)
    ensures same <==> ents == published
  {
    if |ents| != |published| {
      return false;
    }
    for i := 0 to |ents|
      invariant ents[..i] == published[..i]
    {
      if ents[i] != published[i] {
        return false;
      }
    }
    return true;
  }

  // What a rejection says about the round.
  ghost predicate Explains(v: Verdict, p: Program, r: Round) {
    match v
    case Accepted => true
    case BadProgram => !p.IsValid()
    case BadMonth => !Valid(r.month)
    case WrongPolicy => r.policyVersion != p.version
    case WrongCalculation => r.calculationVersion != CALCULATION_VERSION
    case CurrencyDiffers => r.currency != p.currency
    case PoolDiffers =>
      r.poolCents != r.carryforwardCents + PoolShareCents(p.poolBps, r.netReceiptsCents)
    case DuplicateAccount => !DistinctAccounts(r.entitlements)
    case CreditsDiffer => r.totalCredits != SumBy(r.entitlements, CreditsIn())
    case CannotAllocate => exists i | 0 <= i < |r.entitlements| :: r.entitlements[i].credits < 0
    case EntitlementsDiffer => !Apportioned(Allocatable(r.poolCents), r.entitlements)
    case UnallocatedDiffers => r.unallocatedCents != r.poolCents - r.AllocatedCents()
  }

  lemma {:induction false} CannotAllocateMeansNegative(pool: nat, ents: seq<Entitlement>)
    requires DistinctAccounts(ents) && AllocationOf(pool, CreditMap(ents)).Err?
    ensures exists i | 0 <= i < |ents| :: ents[i].credits < 0
    ensures !Apportioned(pool, ents)
  {
    CreditMapAt(ents);
    ReallocationReproduces(pool, ents);
    var a :| a in CreditMap(ents) && CreditMap(ents)[a] < 0;
    var i :| 0 <= i < |ents| && AccountSeq(ents)[i] == a;
    assert ents[i].account == a && ents[i].credits < 0;
  }

  /** Accepts exactly the reproducible rounds; a rejection names a check that fails. */
  method VerifyRound(p: Program, r: Round) returns (v: Verdict)
    ensures v == Accepted <==> Reproducible(p, r)
    ensures Explains(v, p, r)
  {
    if !p.IsValid() {
      return BadProgram;
    }
    if !Valid(r.month) {
      return BadMonth;
    }
    if r.policyVersion != p.version {
      return WrongPolicy;
    }
    if r.calculationVersion != CALCULATION_VERSION {
      return WrongCalculation;
    }
    if r.currency != p.currency {
      return CurrencyDiffers;
    }
    var pool := r.carryforwardCents + PoolShareCents(p.poolBps, r.netReceiptsCents);
    if pool != r.poolCents {
      return PoolDiffers;
    }
    var duplicate, credits, totalCredits := ReadCredits(r.entitlements);
    if duplicate {
      if ByAccount(r.entitlements) {
        AscendingIsDistinct(r.entitlements);
      }
      return DuplicateAccount;
    }
    if totalCredits != r.totalCredits {
      return CreditsDiffer;
    }
    var allocatable := pool;
    if allocatable < 0 {
      allocatable := 0;
    }
    var ents := Allocate(allocatable, credits);
    ReallocationReproduces(allocatable, r.entitlements);
    if ents.Err? {
      CannotAllocateMeansNegative(allocatable, r.entitlements);
      return CannotAllocate;
    }
    var same := SameEntitlements(ents.value, r.entitlements);
    if !same {
      return EntitlementsDiffer;
    }
    var paid := SumAmounts(r.entitlements);
    if pool - paid != r.unallocatedCents {
      return UnallocatedDiffers;
    }
    return Accepted;
  }

  // ----- soundness and completeness

  lemma {:induction false} AllocationRecordsCredits(pool: int, credits: Credits, ents: seq<Entitlement>)
    requires AllocationOf(pool, credits) == Ok(ents) && forall a | a in credits :: credits[a] > 0
    ensures ByAccount(ents) && CreditMap(ents) == credits
  {
    AllocationListsCredits(pool, credits, ents);
    AscendingIsDistinct(ents);
    CreditMapAt(ents);
    forall i | 0 <= i < |ents| ensures ents[i].account in AccountSeq(ents) {
      assert AccountSeq(ents)[i] == ents[i].account;
    }
    SameCredits(credits, CreditMap(ents), ents);
  }

  ghost predicate Records(credits: Credits, ents: seq<Entitlement>) {
    forall i | 0 <= i < |ents| ::
      ents[i].account in credits && credits[ents[i].account] == ents[i].credits
  }

  lemma SameCredits(credits: Credits, recorded: Credits, ents: seq<Entitlement>)
    requires Records(credits, ents) && Records(recorded, ents)
    requires forall a | a in credits :: exists i :: 0 <= i < |ents| && ents[i].account == a
    requires forall a | a in recorded :: a in AccountSeq(ents)
    ensures recorded == credits
  {
    forall a | a in recorded ensures a in credits {
      var i :| 0 <= i < |ents| && AccountSeq(ents)[i] == a;
      assert ents[i].account == a;
    }
  }

  lemma AllocatedIsApportioned(pool: nat, credits: Credits, ents: seq<Entitlement>)
    requires AllocationOf(pool, credits) == Ok(ents) && forall a | a in credits :: credits[a] > 0
    ensures Apportioned(pool, ents)
  {
    AllocationRecordsCredits(pool, credits, ents);
    AscendingIsDistinct(ents);
    ReallocationReproduces(pool, ents);
  }

  // Every computed round is reproducible, whoever closes it and whenever.
  lemma ComputedRoundsAreReproducible(
    p: Program, m: Month, receipts: seq<Receipt>, awards: seq<Award>, carry: int,
    round: Round, obligations: seq<Obligations.Obligation>, closedAt: Option<Instant>, closedBy: string)
    requires ComputeRoundOf(p, m, receipts, awards, carry) == Ok((round, obligations))
    ensures Reproducible(p, round.(closedAt := closedAt, closedBy := closedBy))
  {
    RoundAddsUp(p, m, receipts, awards, carry, round, obligations);
    ComputedParts(p, m, receipts, awards, carry, round, obligations);
    CreditsArePositive(awards, m);
    AllocatedIsApportioned(Allocatable(round.poolCents), CreditsFrom(awards, m), round.entitlements);
  }

  // The program, the carryforward, the net receipts and the credits of each account leave only
  // one round to accept.
  lemma AcceptedRoundsAreUnique(p: Program, r: Round, r': Round)
    requires Reproducible(p, r) && Reproducible(p, r')
    requires r.carryforwardCents == r'.carryforwardCents && r.netReceiptsCents == r'.netReceiptsCents
    requires CreditMap(r.entitlements) == CreditMap(r'.entitlements)
    ensures r.entitlements == r'.entitlements
    ensures r.poolCents == r'.poolCents && r.totalCredits == r'.totalCredits
    ensures r.unallocatedCents == r'.unallocatedCents
  {
    AscendingIsDistinct(r.entitlements);
    AscendingIsDistinct(r'.entitlements);
    ReallocationReproduces(Allocatable(r.poolCents), r.entitlements);
    ReallocationReproduces(Allocatable(r'.poolCents), r'.entitlements);
  }
}
