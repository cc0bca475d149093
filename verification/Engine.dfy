/** contributor/engine.go and round.go: the computation of a month's round. */
module Engine {
  import opened Allocation
  import opened Lex
  import opened Months
  import opened Obligations
  import opened Policy
  import opened Results
  import opened Sorting
  import opened Sums

  const CALCULATION_VERSION := 1

  datatype Round = Round(
    month: Month, policyVersion: string, calculationVersion: int, currency: string,
    netReceiptsCents: int, carryforwardCents: int, poolCents: int, totalCredits: int,
    entitlements: seq<Entitlement>, unallocatedCents: int,
    closedAt: Option<Instant>, closedBy: string)
  {
    ghost function AllocatedCents(): int {
      SumBy(entitlements, AmountOf())
    }
  }

  datatype EngineError =
    | InvalidProgram | CalculationMismatch | InvalidMonth | NotEffective
    | InvalidReceipt | WrongMonth | WrongCurrency | InvalidAward | AllocationFailed

  // ----- the pool's share of receipts

  // Division that truncates toward zero, as big.Int.Quo does.
  function Quo(a: int, b: int): int
    requires b > 0
  {
    if a >= 0 then a / b else -(-a / b)
  }

  function PoolShareCents(poolBps: int, netReceiptsCents: int): int {
    Quo(netReceiptsCents * poolBps, 10000)
  }

  // The pool's share is the exact share without its sub-cent part: never more than the exact
  // share in size, less than a cent short of it, and of its sign. It fits an int64 if the net
  // receipts do.
  lemma PoolShareTruncates(bps: int, net: int)
    requires 0 < bps <= 10000
    ensures var share := PoolShareCents(bps, net);
            && (net >= 0 ==> 0 <= share <= net && share * 10000 <= net * bps < share * 10000 + 10000)
            && (net <= 0 ==> net <= share <= 0 && share * 10000 - 10000 < net * bps <= share * 10000)
    ensures PoolShareCents(bps, -net) == -PoolShareCents(bps, net)
  {
    SharesBound(net, bps);
    assert -net * bps == -(net * bps);
  }

  lemma SharesBound(net: int, bps: int)
    requires 0 < bps <= 10000
    ensures net >= 0 ==> 0 <= net * bps <= net * 10000
    ensures net <= 0 ==> net * 10000 <= net * bps <= 0
  {
  }

  function DueDate(p: Program, m: Month): Due
    requires Valid(m)
  {
    var quarter := Index(m) % 12 / 3;
    Due(Index(m) / 12 * 12 + quarter * 3 + 3, p.payoutDueDays)
  }

  // Obligations fall due payoutDueDays after the quarter that contains the month: quarters
  // start at multiples of three months.
  lemma DueAfterQuarter(p: Program, m: Month)
    requires Valid(m)
    ensures DueDate(p, m).month % 3 == 0 && Index(m) < DueDate(p, m).month <= Index(m) + 3
    ensures DueDate(p, m).days == p.payoutDueDays
  {
  }

  // ----- active credits

  predicate Counts(a: Award, m: Month) {
    a.status == Approved && a.ActiveIn(m)
  }

  function AddSplits(credits: Credits, splits: seq<Split>): Credits {
    if splits == [] then credits
    else
      var s, before := splits[|splits| - 1], AddSplits(credits, splits[..|splits| - 1]);
      before[s.account := CreditsOf(before)(s.account) + s.credits]
  }

  function CreditsFrom(awards: seq<Award>, m: Month): Credits {
    if awards == [] then map[]
    else
      var a, before := awards[|awards| - 1], CreditsFrom(awards[..|awards| - 1], m);
      if Counts(a, m) then AddSplits(before, a.splits) else before
  }

  predicate AwardsValid(awards: seq<Award>) {
    forall i | 0 <= i < |awards| :: awards[i].status == Approved ==> awards[i].IsValid()
  }

  function ActiveCreditsOf(awards: seq<Award>, m: Month): Option<Credits> {
    if AwardsValid(awards) then Some(CreditsFrom(awards, m)) else None
  }

  method CreditSplits(credits: Credits, splits: seq<Split>) returns (r: Credits)
    ensures r == AddSplits(credits, splits)
  {
    r := credits;
    for i := 0 to |splits|
      invariant r == AddSplits(credits, splits[..i])
    {
      var s := splits[i];
      assert splits[..i + 1][..i] == splits[..i];
      r := r[s.account := (if s.account in r then r[s.account] else 0) + s.credits];
    }
    assert splits[..|splits|] == splits;
  }

  /** The active credits per account; None when an approved award is invalid. */
  method ActiveCredits(awards: seq<Award>, m: Month) returns (r: Option<Credits>)
    ensures r == ActiveCreditsOf(awards, m)
  {
    var credits: Credits := map[];
    for i := 0 to |awards|
      invariant AwardsValid(awards[..i]) && credits == CreditsFrom(awards[..i], m)
    {
      var a := awards[i];
      assert awards[..i + 1][..i] == awards[..i];
      if a.status != Approved {
        continue;
      }
      if !a.IsValid() {
        return None;
      }
      if !a.ActiveIn(m) {
        continue;
      }
      credits := CreditSplits(credits, a.splits);
    }
    assert awards[..|awards|] == awards;
    return Some(credits);
  }

  function SplitTo(account: string): Split -> int {
    (s: Split) => if s.account == account then s.credits else 0
  }

  // What an award contributes to an account in month m.
  function Contribution(m: Month, account: string): Award -> int {
    (a: Award) => if Counts(a, m) then SumBy(a.splits, SplitTo(account)) else 0
  }

  lemma {:induction false} AddSplitsAt(credits: Credits, splits: seq<Split>, account: string)
    requires forall i | 0 <= i < |splits| :: splits[i].credits > 0
    requires forall a | a in credits :: credits[a] > 0
    ensures forall a | a in AddSplits(credits, splits) :: AddSplits(credits, splits)[a] > 0
    ensures CreditsOf(AddSplits(credits, splits))(account)
              == CreditsOf(credits)(account) + SumBy(splits, SplitTo(account))
  {
    if splits != [] {
      AddSplitsAt(credits, splits[..|splits| - 1], account);
    }
  }

  // An account's active credits are the sum of what the awards contribute to it, and an account
  // is listed only with positive credits.
  lemma {:induction false} CreditsAreContributions(awards: seq<Award>, m: Month, account: string)
    requires AwardsValid(awards)
    ensures forall a | a in CreditsFrom(awards, m) :: CreditsFrom(awards, m)[a] > 0
    ensures CreditsOf(CreditsFrom(awards, m))(account) == SumBy(awards, Contribution(m, account))
  {
    if awards != [] {
      var n := |awards| - 1;
      assert AwardsValid(awards[..n]);
      CreditsAreContributions(awards[..n], m, account);
      if Counts(awards[n], m) {
        AddSplitsAt(CreditsFrom(awards[..n], m), awards[n].splits, account);
      }
    }
  }

  lemma AwardsValidPermutation(awards: seq<Award>, awards': seq<Award>)
    requires multiset(awards) == multiset(awards') && AwardsValid(awards)
    ensures AwardsValid(awards')
  {
    SameElements(awards, awards');
    forall i | 0 <= i < |awards'| ensures awards'[i].status == Approved ==> awards'[i].IsValid() {
      assert awards'[i] in awards;
    }
  }

  // The order of the awards does not matter.
  lemma CreditsPermutation(awards: seq<Award>, awards': seq<Award>, m: Month)
    requires multiset(awards) == multiset(awards')
    ensures ActiveCreditsOf(awards, m) == ActiveCreditsOf(awards', m)
  {
    if AwardsValid(awards) || AwardsValid(awards') {
      if AwardsValid(awards) {
        AwardsValidPermutation(awards, awards');
      } else {
        AwardsValidPermutation(awards', awards);
      }
      var c, c' := CreditsFrom(awards, m), CreditsFrom(awards', m);
      forall a ensures CreditsOf(c)(a) == CreditsOf(c')(a) {
        CreditsAreContributions(awards, m, a);
        CreditsAreContributions(awards', m, a);
        SumByPermutation(awards, awards', Contribution(m, a));
      }
      CreditsAreContributions(awards, m, "");
      CreditsAreContributions(awards', m, "");
      forall a ensures a in c <==> a in c' {
        assert CreditsOf(c)(a) == CreditsOf(c')(a);
      }
      forall a | a in c ensures c[a] == c'[a] {
        assert CreditsOf(c)(a) == CreditsOf(c')(a);
      }
      assert c == c';
    }
  }

  // The allocation denominator: all credits, in whatever order the map lists them.
  ghost function TotalCreditsOf(credits: Credits): int {
    SumBy(Listed(credits.Keys), CreditsOf(credits))
  }

  lemma DistinctSameElements(s: seq<string>, t: seq<string>)
    requires Distinct(s) && Distinct(t) && forall x :: x in s <==> x in t
    ensures multiset(s) == multiset(t)
  {
    SortAccounts(s);
    SortAccounts(t);
    forall x, y ensures !(Less(x, y) && Less(y, x)) {
      LessTrichotomy(x, y);
    }
    AscendingUnique(Sort(s, LessEq), Sort(t, LessEq), Less);
  }

  method SumCredits(credits: Credits) returns (total: int)
    ensures total == TotalCreditsOf(credits)
  {
    total := 0;
    var pending := credits.Keys;
    ghost var seen: seq<string> := [];
    while pending != {}
      invariant pending <= credits.Keys
      invariant Distinct(seen) && forall a :: a in seen <==> a in credits && a !in pending
      invariant total == SumBy(seen, CreditsOf(credits))
      decreases |pending|
    {
      var account :| account in pending;
      pending := pending - {account};
      total := total + credits[account];
      SumByAppend(seen, account, CreditsOf(credits));
      seen := seen + [account];
    }
    ListedElements(credits.Keys);
    DistinctSameElements(seen, Listed(credits.Keys));
    SumByPermutation(seen, Listed(credits.Keys), CreditsOf(credits));
  }

  // ----- the round

  function ReceiptError(r: Receipt, p: Program, m: Month): Option<EngineError> {
    if !r.IsValid() then Some(InvalidReceipt)
    else if r.month != m then Some(WrongMonth)
    else if r.currency != p.currency then Some(WrongCurrency)
    else None
  }

  // The error of the first receipt that has one.
  function ReceiptsError(receipts: seq<Receipt>, p: Program, m: Month): Option<EngineError> {
    if receipts == [] then None
    else if ReceiptError(receipts[0], p, m).Some? then ReceiptError(receipts[0], p, m)
    else ReceiptsError(receipts[1..], p, m)
  }

  function ProgramError(p: Program, m: Month): Option<EngineError> {
    if !p.IsValid() then Some(InvalidProgram)
    else if p.calculationVersion != CALCULATION_VERSION then Some(CalculationMismatch)
    else if !Valid(m) then Some(InvalidMonth)
    else if Before(m, p.effectiveFrom) then Some(NotEffective)
    else None
  }

  function ObligationFor(e: Entitlement, p: Program, m: Month): Obligation
    requires Valid(m)
  {
    Obligation(e.account, m, e.amountCents, p.currency, DueDate(p, m), Earned, "", [])
  }

  function ObligationsFor(ents: seq<Entitlement>, p: Program, m: Month): seq<Obligation>
    requires Valid(m)
  {
    if ents == [] then []
    else
      var e := ents[|ents| - 1];
      ObligationsFor(ents[..|ents| - 1], p, m)
        + if e.amountCents <= 0 then [] else [ObligationFor(e, p, m)]
  }

  ghost function RoundOf(p: Program, m: Month, net: int, share: int, credits: Credits, carry: int,
                         ents: seq<Entitlement>): Round
  {
    var pool := carry + share;
    Round(m, p.version, CALCULATION_VERSION, p.currency, net, carry, pool, TotalCreditsOf(credits),
          ents, pool - SumBy(ents, AmountOf()), None, "")
  }

  ghost function Allocatable(pool: int): int {
    if pool < 0 then 0 else pool
  }

  ghost function ComputeRoundOf(
    p: Program, m: Month, receipts: seq<Receipt>, awards: seq<Award>, carry: int)
    : Result<(Round, seq<Obligation>), EngineError>
  {
    if ProgramError(p, m).Some? then Err(ProgramError(p, m).value)
    else if ReceiptsError(receipts, p, m).Some? then Err(ReceiptsError(receipts, p, m).value)
    else
      match ActiveCreditsOf(awards, m)
      case None => Err(InvalidAward)
      case Some(credits) =>
        var net := SumBy(receipts, NetOf());
        ShareOut(p, m, net, PoolShareCents(p.poolBps, net), credits, carry)
  }

  ghost function ShareOut(p: Program, m: Month, net: int, share: int, credits: Credits, carry: int)
    : Result<(Round, seq<Obligation>), EngineError>
    requires Valid(m)
  {
    match AllocationOf(Allocatable(carry + share), credits)
    case Err(_) => Err(AllocationFailed)
    case Ok(ents) => Ok((RoundOf(p, m, net, share, credits, carry, ents), ObligationsFor(ents, p, m)))
  }

  method SumAmounts(ents: seq<Entitlement>) returns (total: int)
    ensures total == SumBy(ents, AmountOf())
  {
    total := 0;
    for i := 0 to |ents|
      invariant total == SumBy(ents[..i], AmountOf())
    {
      SumBySnoc(ents, AmountOf(), i);
      total := total + ents[i].amountCents;
    }
    assert ents[..|ents|] == ents;
  }

  // The sum of the net receipts, or the error of the first receipt that has one.
  method NetReceipts(receipts: seq<Receipt>, p: Program, m: Month) returns (r: Result<int, EngineError>)
    ensures r == match ReceiptsError(receipts, p, m)
                 case Some(error) => Err(error)
                 case None => Ok(SumBy(receipts, NetOf()))
  {
    var net := 0;
    for i := 0 to |receipts|
      invariant ReceiptsError(receipts, p, m) == ReceiptsError(receipts[i..], p, m)
      invariant net == SumBy(receipts[..i], NetOf())
    {
      var receipt := receipts[i];
      assert receipts[i..][1..] == receipts[i + 1..];
      if !receipt.IsValid() {
        return Err(InvalidReceipt);
      }
      if receipt.month != m {
        return Err(WrongMonth);
      }
      if receipt.currency != p.currency {
        return Err(WrongCurrency);
      }
      var cents := NetCents(receipt);
      SumBySnoc(receipts, NetOf(), i);
      net := net + cents;
    }
    assert receipts[..|receipts|] == receipts;
    return Ok(net);
  }

  // One obligation for each positive entitlement.
  method MakeObligations(ents: seq<Entitlement>, p: Program, m: Month)
    returns (obligations: seq<Obligation>)
    requires Valid(m)
    ensures obligations == ObligationsFor(ents, p, m)
  {
    var due := DueDate(p, m);
    obligations := [];
    for i := 0 to |ents|
      invariant obligations == ObligationsFor(ents[..i], p, m)
    {
      var e := ents[i];
      assert ents[..i + 1][..i] == ents[..i];
      if e.amountCents <= 0 {
        continue;
      }
      obligations := obligations
        + [Obligation(e.account, m, e.amountCents, p.currency, due, Earned, "", [])];
    }
    assert ents[..|ents|] == ents;
  }

  method MakeRound(p: Program, m: Month, net: int, share: int, credits: Credits, carryforwardCents: int,
                   ents: seq<Entitlement>)
    returns (round: Round)
    ensures round == RoundOf(p, m, net, share, credits, carryforwardCents, ents)
  {
    var totalCredits := SumCredits(credits);
    var pool := carryforwardCents + share;
    var paid := SumAmounts(ents);
    return Round(m, p.version, CALCULATION_VERSION, p.currency, net, carryforwardCents, pool,
                 totalCredits, ents, pool - paid, None, "");
  }

  // Allocates the pool and makes the round and its obligations.
  method ShareOutPool(p: Program, m: Month, net: int, share: int, credits: Credits, carryforwardCents: int)
    returns (r: Result<(Round, seq<Obligation>), EngineError>)
    requires Valid(m)
    ensures r == ShareOut(p, m, net, share, credits, carryforwardCents)
  {
    var pool := carryforwardCents + share;
    var allocatable := pool;
    if allocatable < 0 {
      allocatable := 0;
    }
    var allocation := Allocate(allocatable, credits);
    if allocation.Err? {
      return Err(AllocationFailed);
    }
    var ents := allocation.value;
    var round := MakeRound(p, m, net, share, credits, carryforwardCents, ents);
    var obligations := MakeObligations(ents, p, m);
    return Ok((round, obligations));
  }

  /** Computes month m's round and its obligations. */
  method ComputeRound(
    p: Program, m: Month, receipts: seq<Receipt>, awards: seq<Award>, carryforwardCents: int)
    returns (r: Result<(Round, seq<Obligation>), EngineError>)
    ensures r == ComputeRoundOf(p, m, receipts, awards, carryforwardCents)
  {
    if !p.IsValid() {
      return Err(InvalidProgram);
    }
    if p.calculationVersion != CALCULATION_VERSION {
      return Err(CalculationMismatch);
    }
    if !Valid(m) {
      return Err(InvalidMonth);
    }
    if Before(m, p.effectiveFrom) {
      return Err(NotEffective);
    }

    var netted := NetReceipts(receipts, p, m);
    if netted.Err? {
      return Err(netted.error);
    }
    var active := ActiveCredits(awards, m);
    if active.None? {
      return Err(InvalidAward);
    }
    var share := PoolShareCents(p.poolBps, netted.value);
    r := ShareOutPool(p, m, netted.value, share, active.value, carryforwardCents);
  }

  // ----- what a computed round says

  ghost predicate SameInputs(receipts: seq<Receipt>, awards: seq<Award>,
                             receipts': seq<Receipt>, awards': seq<Award>)
  {
    multiset(receipts) == multiset(receipts') && multiset(awards) == multiset(awards')
  }

  lemma {:induction false} NoReceiptError(receipts: seq<Receipt>, p: Program, m: Month)
    ensures ReceiptsError(receipts, p, m).None? <==>
            forall r | r in receipts :: ReceiptError(r, p, m).None?
  {
    if receipts != [] {
      NoReceiptError(receipts[1..], p, m);
      assert receipts == [receipts[0]] + receipts[1..];
    }
  }

  // The order in which receipts and awards are listed matters neither to whether a round can be
  // computed nor to what it is.
  lemma ComputeRoundPermutation(
    p: Program, m: Month, receipts: seq<Receipt>, awards: seq<Award>,
    receipts': seq<Receipt>, awards': seq<Award>, carry: int)
    requires SameInputs(receipts, awards, receipts', awards')
    ensures ComputeRoundOf(p, m, receipts, awards, carry).Ok? <==>
            ComputeRoundOf(p, m, receipts', awards', carry).Ok?
    ensures ComputeRoundOf(p, m, receipts, awards, carry).Ok? ==>
              ComputeRoundOf(p, m, receipts, awards, carry)
                == ComputeRoundOf(p, m, receipts', awards', carry)
  {
    CreditsPermutation(awards, awards', m);
    SumByPermutation(receipts, receipts', NetOf());
    NoReceiptError(receipts, p, m);
    NoReceiptError(receipts', p, m);
    SameElements(receipts, receipts');
  }

  lemma {:induction false} CreditsArePositive(awards: seq<Award>, m: Month)
    requires AwardsValid(awards)
    ensures forall a | a in CreditsFrom(awards, m) :: CreditsFrom(awards, m)[a] > 0
  {
    CreditsAreContributions(awards, m, "");
  }

  lemma {:induction false} AddSplitsKeys(credits: Credits, splits: seq<Split>)
    requires "" !in credits && forall i | 0 <= i < |splits| :: splits[i].account != ""
    ensures "" !in AddSplits(credits, splits)
  {
    if splits != [] {
      AddSplitsKeys(credits, splits[..|splits| - 1]);
    }
  }

  lemma {:induction false} NoUnnamedAccount(awards: seq<Award>, m: Month)
    requires AwardsValid(awards)
    ensures "" !in CreditsFrom(awards, m)
  {
    if awards != [] {
      var n := |awards| - 1;
      assert AwardsValid(awards[..n]);
      NoUnnamedAccount(awards[..n], m);
      if Counts(awards[n], m) {
        AddSplitsKeys(CreditsFrom(awards[..n], m), awards[n].splits);
      }
    }
  }

  lemma TotalOfAccounts(credits: Credits)
    requires forall a | a in credits :: credits[a] > 0
    ensures TotalCreditsOf(credits) == SumBy(Accounts(credits), CreditsOf(credits))
  {
    AccountsAscend(credits);
    ListedElements(credits.Keys);
    var accounts := Accounts(credits);
    forall i, j | 0 <= i < j < |accounts| ensures accounts[i] != accounts[j] {
      LessTrichotomy(accounts[i], accounts[j]);
    }
    forall a ensures a in Listed(credits.Keys) <==> a in accounts {
      assert a in Listed(credits.Keys) <==> a in credits;
    }
    DistinctSameElements(Listed(credits.Keys), accounts);
    SumByPermutation(Listed(credits.Keys), accounts, CreditsOf(credits));
  }

  lemma {:induction false} SumOfCredits(accounts: seq<string>, credits: Credits, amounts: seq<int>)
    requires |accounts| == |amounts|
    ensures SumBy(Entitled(accounts, WeightsOf(accounts, credits), amounts), CreditsIn())
              == SumBy(accounts, CreditsOf(credits))
  {
    if accounts != [] {
      var n := |accounts| - 1;
      SumOfCredits(accounts[..n], credits, amounts[..n]);
      assert Entitled(accounts, WeightsOf(accounts, credits), amounts)[..n]
          == Entitled(accounts[..n], WeightsOf(accounts[..n], credits), amounts[..n]);
    }
  }

  // The engine never fails on its own arithmetic: a round fails only for an invalid input.
  lemma AllocationNeverFails(
    p: Program, m: Month, receipts: seq<Receipt>, awards: seq<Award>, carry: int)
    ensures ComputeRoundOf(p, m, receipts, awards, carry) != Err(AllocationFailed)
  {
    if AwardsValid(awards) {
      CreditsArePositive(awards, m);
    }
    if ReceiptsError(receipts, p, m).Some? {
      ReceiptsErrorKind(receipts, p, m);
    }
  }

  lemma {:induction false} ReceiptsErrorKind(receipts: seq<Receipt>, p: Program, m: Month)
    ensures ReceiptsError(receipts, p, m) != Some(AllocationFailed)
  {
    if receipts != [] {
      ReceiptsErrorKind(receipts[1..], p, m);
    }
  }

  // What every computed round is made of.
  lemma {:induction false} ComputedParts(
    p: Program, m: Month, receipts: seq<Receipt>, awards: seq<Award>, carry: int,
    round: Round, obligations: seq<Obligation>)
    requires ComputeRoundOf(p, m, receipts, awards, carry) == Ok((round, obligations))
    ensures p.IsValid() && p.calculationVersion == CALCULATION_VERSION && Valid(m) && AwardsValid(awards)
    ensures var credits := CreditsFrom(awards, m);
            var net := SumBy(receipts, NetOf());
            && round == RoundOf(p, m, net, PoolShareCents(p.poolBps, net), credits, carry, round.entitlements)
            && AllocationOf(Allocatable(round.poolCents), credits) == Ok(round.entitlements)
    ensures obligations == ObligationsFor(round.entitlements, p, m)
  {
  }

  // A computed round adds up: the pool is the carryforward and the share of the net receipts,
  // and what is not allocated is the whole pool when it is negative or no credits are active,
  // and nothing otherwise.
  lemma {:induction false} RoundAddsUp(
    p: Program, m: Month, receipts: seq<Receipt>, awards: seq<Award>, carry: int,
    round: Round, obligations: seq<Obligation>)
    requires ComputeRoundOf(p, m, receipts, awards, carry) == Ok((round, obligations))
    ensures round.carryforwardCents == carry && round.netReceiptsCents == SumBy(receipts, NetOf())
    ensures round.poolCents == carry + PoolShareCents(p.poolBps, round.netReceiptsCents)
    ensures round.AllocatedCents() + round.unallocatedCents == round.poolCents
    ensures round.totalCredits == SumBy(round.entitlements, CreditsIn())
    ensures round.unallocatedCents
              == if round.poolCents < 0 || round.totalCredits == 0 then round.poolCents else 0
    ensures ByAccount(round.entitlements)
    ensures forall i | 0 <= i < |round.entitlements| ::
              round.entitlements[i].account != "" && round.entitlements[i].amountCents >= 0
  {
    var credits := CreditsFrom(awards, m);
    var ents := round.entitlements;
    CreditsArePositive(awards, m);
    NoUnnamedAccount(awards, m);
    AllocationConserves(Allocatable(round.poolCents), credits, ents);
    AllocationListsCredits(Allocatable(round.poolCents), credits, ents);
    TotalIsRecorded(Allocatable(round.poolCents), credits, ents);
  }

  // The entitlements record all of the credits.
  lemma {:induction false} TotalIsRecorded(pool: int, credits: Credits, ents: seq<Entitlement>)
    requires AllocationOf(pool, credits) == Ok(ents) && forall a | a in credits :: credits[a] > 0
    ensures TotalCreditsOf(credits) == SumBy(ents, CreditsIn())
    ensures if ents == [] then TotalCreditsOf(credits) == 0 else TotalCreditsOf(credits) > 0
  {
    AllocationParts(pool, credits, ents);
    TotalOfAccounts(credits);
    if ents != [] {
      var w := WeightsOf(Accounts(credits), credits);
      SumOfCredits(Accounts(credits), credits, Shares.Allotted(pool, w));
      AccountsAscend(credits);
      PositiveWeights(Accounts(credits), credits);
    }
  }

  function Owing(): Obligation -> int {
    (o: Obligation) => o.amountCents
  }

  // Whether o is the obligation of one of the positive entitlements.
  ghost predicate Earns(ents: seq<Entitlement>, o: Obligation, p: Program, m: Month)
    requires Valid(m)
  {
    exists i :: 0 <= i < |ents| && ents[i].amountCents > 0 && o == ObligationFor(ents[i], p, m)
  }

  lemma EarnsMore(ents: seq<Entitlement>, o: Obligation, p: Program, m: Month)
    requires Valid(m) && ents != []
    ensures var (before, e) := (ents[..|ents| - 1], ents[|ents| - 1]);
            Earns(ents, o, p, m) <==>
            Earns(before, o, p, m) || (e.amountCents > 0 && o == ObligationFor(e, p, m))
  {
    var before, n := ents[..|ents| - 1], |ents| - 1;
    if i :| 0 <= i < |before| && before[i].amountCents > 0 && o == ObligationFor(before[i], p, m) {
      assert ents[i] == before[i];
    }
    if i :| 0 <= i < |ents| && ents[i].amountCents > 0 && o == ObligationFor(ents[i], p, m) {
      assert i < n ==> before[i] == ents[i];
    }
  }

  // There is one obligation for each positive entitlement and no other.
  lemma {:induction false} ObligationsMatchEntitlements(ents: seq<Entitlement>, p: Program, m: Month)
    requires Valid(m)
    ensures forall o :: o in ObligationsFor(ents, p, m) <==> Earns(ents, o, p, m)
  {
    if ents != [] {
      ObligationsMatchEntitlements(ents[..|ents| - 1], p, m);
      forall o ensures o in ObligationsFor(ents, p, m) <==> Earns(ents, o, p, m) {
        EarnsMore(ents, o, p, m);
      }
    }
  }

  // They are in ascending order of account.
  lemma {:induction false} ObligationsAscend(ents: seq<Entitlement>, p: Program, m: Month)
    requires Valid(m) && ByAccount(ents)
    ensures AscendingAccounts(ObligationsFor(ents, p, m))
  {
    if ents != [] {
      var n := |ents| - 1;
      var os := ObligationsFor(ents[..n], p, m);
      ObligationsAscend(ents[..n], p, m);
      ObligationsMatchEntitlements(ents[..n], p, m);
      forall i | 0 <= i < |os| ensures Less(os[i].account, ents[n].account) {
        assert Earns(ents[..n], os[i], p, m);
        var k :| 0 <= k < n && ents[..n][k].amountCents > 0 && os[i] == ObligationFor(ents[..n][k], p, m);
        assert ents[k].account == os[i].account;
      }
    }
  }

  ghost predicate AscendingAccounts(os: seq<Obligation>) {
    forall i, j | 0 <= i < j < |os| :: Less(os[i].account, os[j].account)
  }

  // The obligations add up to what the round allocates.
  lemma {:induction false} ObligationsAddUp(ents: seq<Entitlement>, p: Program, m: Month)
    requires Valid(m) && forall i | 0 <= i < |ents| :: ents[i].amountCents >= 0
    ensures SumBy(ObligationsFor(ents, p, m), Owing()) == SumBy(ents, AmountOf())
  {
    if ents != [] {
      var n := |ents| - 1;
      ObligationsAddUp(ents[..n], p, m);
      assert AmountOf()(ents[n]) == ents[n].amountCents;
      var os := ObligationsFor(ents[..n], p, m);
      if ents[n].amountCents > 0 {
        SumByAppend(os, ObligationFor(ents[n], p, m), Owing());
      } else {
        assert os + [] == os;
      }
    }
  }

  // ----- when a round can be computed, and on what terms it is owed

  ghost predicate GoodProgram(p: Program) {
    && p.version != "" && p.currency != "" && 1 <= p.poolBps <= 10000
    && p.creditDurationRounds >= 1 && p.payoutDueDays >= 1
    && p.calculationVersion == 1 && Parse(p.effectiveFrom).Some?
  }

  // A receipt of month m in the program's currency.
  ghost predicate GoodReceipt(r: Receipt, p: Program, m: Month) {
    && r.source != "" && r.month == m && r.currency == p.currency && r.grossCents >= 0
    && forall a | a in r.adjustments :: a.kind in {Tax, Refund, PassThrough} && a.amountCents >= 0
  }

  // Each recipient is named once and has credits; the award runs for some months, and says why.
  ghost predicate GoodAward(a: Award) {
    && a.splits != [] && a.evidence != [] && a.policyVersion != ""
    && (forall s | s in a.splits :: s.account != "" && s.credits >= 1)
    && (forall i, j | 0 <= i < |a.splits| && 0 <= j < |a.splits| && a.splits[i].account == a.splits[j].account ::
          i == j)
    && Parse(a.activation).Some? && Parse(a.expiration).Some?
    && Parse(a.activation).value < Parse(a.expiration).value
  }

  lemma GoodAwardIsValid(a: Award)
    requires a.status == Approved
    ensures a.IsValid() <==> GoodAward(a)
  {
    if Valid(a.activation) && Valid(a.expiration) {
      BeforeIsChronological(a.activation, a.expiration);
    }
    assert (forall s | s in a.splits :: s.account != "" && s.credits >= 1) <==>
           (forall i | 0 <= i < |a.splits| :: a.splits[i].account != "" && a.splits[i].credits > 0);
  }

  lemma GoodReceiptHasNoError(r: Receipt, p: Program, m: Month)
    requires Valid(m) && p.currency != ""
    ensures ReceiptError(r, p, m).None? <==> GoodReceipt(r, p, m)
  {
    assert (forall a | a in r.adjustments :: a.kind in {Tax, Refund, PassThrough} && a.amountCents >= 0) <==>
           (forall i | 0 <= i < |r.adjustments| ::
              !r.adjustments[i].kind.UnknownKind? && r.adjustments[i].amountCents >= 0);
  }

  // A round is computed exactly when its program is good and in effect in a valid month, and all
  // receipts and all approved awards are good.
  lemma ComputesIff(p: Program, m: Month, receipts: seq<Receipt>, awards: seq<Award>, carry: int)
    ensures ComputeRoundOf(p, m, receipts, awards, carry).Ok? <==>
            && GoodProgram(p) && Parse(m).Some? && Parse(p.effectiveFrom).value <= Parse(m).value
            && (forall r | r in receipts :: GoodReceipt(r, p, m))
            && (forall a | a in awards && a.status == Approved :: GoodAward(a))
  {
    AllocationNeverFails(p, m, receipts, awards, carry);
    if Valid(m) && Valid(p.effectiveFrom) {
      BeforeIsChronological(m, p.effectiveFrom);
    }
    NoReceiptError(receipts, p, m);
    if GoodProgram(p) && Valid(m) {
      forall r | r in receipts ensures ReceiptError(r, p, m).None? <==> GoodReceipt(r, p, m) {
        GoodReceiptHasNoError(r, p, m);
      }
    }
    AwardsValidIff(awards);
  }

  lemma AwardsValidIff(awards: seq<Award>)
    ensures AwardsValid(awards) <==> forall a | a in awards && a.status == Approved :: GoodAward(a)
  {
    forall a | a in awards && a.status == Approved ensures a.IsValid() <==> GoodAward(a) {
      GoodAwardIsValid(a);
    }
    if AwardsValid(awards) {
      forall a | a in awards && a.status == Approved ensures a.IsValid() {
        var i :| 0 <= i < |awards| && awards[i] == a;
      }
    } else {
      var i :| 0 <= i < |awards| && awards[i].status == Approved && !awards[i].IsValid();
      assert awards[i] in awards;
    }
  }

  // An obligation pays an entitlement in the program's currency, the given days after the first
  // quarter to begin after the month, and has been earned.
  lemma {:induction false} ObligationTerms(ents: seq<Entitlement>, p: Program, m: Month, o: Obligation)
    requires Valid(m) && o in ObligationsFor(ents, p, m)
    ensures exists i :: 0 <= i < |ents| && ents[i].amountCents > 0
              && o == Obligation(ents[i].account, m, ents[i].amountCents, p.currency,
                                 Due((Index(m) / 3 + 1) * 3, p.payoutDueDays), Earned, "", [])
  {
    ObligationsMatchEntitlements(ents, p, m);
    assert Earns(ents, o, p, m);
    Quarter(Index(m));
  }

  lemma Quarter(i: int)
    ensures i / 12 * 12 + i % 12 / 3 * 3 + 3 == (i / 3 + 1) * 3
  {
  }
}
