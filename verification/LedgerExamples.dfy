/** Runs of the ledger (contributor/ledger.go) that do not do what its comments say. */
module LedgerExamples {
  import opened Allocation
  import opened Chains
  import opened Closing
  import opened Engine
  import opened LedgerRetries
  import opened LedgerRuns
  import opened Lex
  import opened Months
  import opened Obligations
  import opened Policy
  import opened Results
  import opened Sums

  // A program that gives the pool all of the receipts, from the month with index start on.
  function ProgramFrom(start: int): Program {
    Program("v1", "USD", 10000, 1, 30, CALCULATION_VERSION, FromIndex(start))
  }

  // An attempt to close a month of no receipts and no awards, in the month after it.
  function EmptyMonth(p: Program, i: int): Attempt {
    Attempt(FromIndex(i), Instant(i + 1, 0), "ops", Inputs([p], [], []), 1)
  }

  ghost predicate InEffect(p: Program, m: Month) {
    && p.IsValid() && p.calculationVersion == CALCULATION_VERSION && !Before(m, p.effectiveFrom)
    && ProgramFor([p], m) == Some(p)
  }

  // Month m has index i, and is followed by a month.
  ghost predicate Numbered(m: Month, i: int) {
    Valid(m) && Index(m) == i && Valid(Next(m)) && Index(Next(m)) == i + 1
  }

  lemma MonthInEffect(start: int, i: int)
    requires 0 <= start <= i < MONTH_COUNT - 1
    ensures Numbered(FromIndex(i), i) && InEffect(ProgramFrom(start), FromIndex(i))
  {
    ParseFromIndex(i);
    ParseFromIndex(start);
    AddIsAddition(FromIndex(i), 1);
    BeforeIsChronological(FromIndex(i), FromIndex(start));
    ProgramForIsLatest([ProgramFrom(start)], FromIndex(i));
  }

  lemma FirstClosing(p: Program, m: Month, i: int, a: Attempt) returns (entry: Closed)
    requires Numbered(m, i) && InEffect(p, m)
    requires a == Attempt(m, Instant(i + 1, 0), "ops", Inputs([p], [], []), 1)
    ensures CloseOf(EMPTY, a).1.Ok? && Chained(CloseOf(EMPTY, a).0.rounds, [entry])
    ensures entry.index == i
  {
    EmptyMonthCloses(EMPTY, a, p);
    CloseExtendsChain(EMPTY, [], a);
    entry := EntryFacts(EMPTY, [], a);
    assert [] + LogOf(EMPTY, a) == [entry];
  }

  // From empty stores a later month is closed and then one further back: both closings succeed,
  // and what they leave is no chain of months.
  lemma OutOfOrderRun(early: int, late: int)
    requires 0 <= early && early + 1 < late < MONTH_COUNT - 1
    ensures var (first, second) := (EmptyMonth(ProgramFrom(early), late), EmptyMonth(ProgramFrom(early), early));
            && CloseOf(EMPTY, first).1.Ok? && CloseOf(CloseOf(EMPTY, first).0, second).1.Ok?
            && !exists log :: Chained(RunAll(EMPTY, [first, second]).rounds, log)
  {
    var p := ProgramFrom(early);
    var first, second := EmptyMonth(p, late), EmptyMonth(p, early);
    MonthInEffect(early, late);
    MonthInEffect(early, early);
    var entry := FirstClosing(p, FromIndex(late), late, first);
    EarlyCloseBreaksChain(CloseOf(EMPTY, first).0, [entry], second, p);
    RunOfTwo(EMPTY, first, second);
  }

  lemma {:induction false} RunOfTwo(b: Books, first: Attempt, second: Attempt)
    ensures RunAll(b, [first, second]) == CloseOf(CloseOf(b, first).0, second).0
  {
    assert [first, second][1..] == [second];
    assert RunAll(CloseOf(CloseOf(b, first).0, second).0, [second][1..])
        == CloseOf(CloseOf(b, first).0, second).0;
  }

  // ----- a month that pays one account

  function Sales(m: Month): Receipt {
    Receipt("sales", m, 10000, [], "USD")
  }

  function OneAward(m: Month): Award
    requires Valid(m)
  {
    Award("a1", [Split("ada", 1)], m, Next(m), ["merged"], "v1", Approved)
  }

  lemma {:induction false} OneAwardCounts(m: Month, i: int)
    requires Numbered(m, i)
    ensures CreditsFrom([OneAward(m)], m) == map["ada" := 1] && AwardsValid([OneAward(m)])
  {
    BeforeIsChronological(m, m);
    BeforeIsChronological(m, Next(m));
    var a := OneAward(m);
    assert [a][..0] == [] && a.splits[..0] == [];
    assert AddSplits(map[], a.splits) == map["ada" := 1];
  }

  lemma SoleAccount(pool: nat) returns (ents: seq<Entitlement>)
    ensures AllocationOf(pool, map["ada" := 1]) == Ok(ents) && ents == [Entitlement("ada", 1, pool)]
  {
    var credits: Credits := map["ada" := 1];
    ents := AllocationOf(pool, credits).value;
    AllocationListsCredits(pool, credits, ents);
    AllocationConserves(pool, credits, ents);
    LessTrichotomy("ada", "ada");
    assert credits["ada"] == 1;
    assert |ents| == 1;
    SumBySnoc(ents, AmountOf(), 0);
    assert ents[..1] == ents && ents[..0] == [];
  }

  lemma {:induction false} SoleObligation(p: Program, m: Month, pool: nat)
    requires Valid(m) && pool > 0
    ensures ObligationsFor([Entitlement("ada", 1, pool)], p, m)
              == [ObligationFor(Entitlement("ada", 1, pool), p, m)]
  {
    assert [Entitlement("ada", 1, pool)][..0] == [];
  }

  lemma {:induction false} SalesNet(p: Program, m: Month)
    requires Valid(m) && p.currency == "USD"
    ensures SumBy([Sales(m)], NetOf()) == 10000 && ReceiptsError([Sales(m)], p, m).None?
  {
    assert [Sales(m)][..0] == [];
  }

  // The one obligation of such a month pays the account what is carried over and the receipts.
  lemma OneAccountComputes(p: Program, m: Month, i: int, carry: nat)
    requires Numbered(m, i) && InEffect(p, m) && p.poolBps == 10000 && p.currency == "USD"
    ensures ComputeRoundOf(p, m, [Sales(m)], [OneAward(m)], carry).Ok?
    ensures ComputeRoundOf(p, m, [Sales(m)], [OneAward(m)], carry).value.1
              == [ObligationFor(Entitlement("ada", 1, carry + 10000), p, m)]
  {
    SalesNet(p, m);
    OneAwardCounts(m, i);
    assert PoolShareCents(10000, 10000) == 10000;
    var ents := SoleAccount(carry + 10000);
    SoleObligation(p, m, carry + 10000);
    assert Allocatable(carry + 10000) == carry + 10000;
    assert ShareOut(p, m, 10000, 10000, map["ada" := 1], carry).Ok?;
  }

  function OneAccount(p: Program, m: Month): Inputs
    requires Valid(m)
  {
    Inputs([p], [Sales(m)], [OneAward(m)])
  }

  function PaidTo(p: Program, m: Month, amount: int): Obligation
    requires Valid(m)
  {
    ObligationFor(Entitlement("ada", 1, amount), p, m)
  }

  lemma OneAccountAssembles(rounds: map<Month, Round>, p: Program, m: Month, i: int, carry: nat)
    requires Numbered(m, i) && InEffect(p, m) && p.poolBps == 10000 && p.currency == "USD"
    requires CarryforwardOf(rounds, m) == Ok(carry)
    ensures AssembleOf(rounds, OneAccount(p, m), m).Ok?
    ensures AssembleOf(rounds, OneAccount(p, m), m).value.1 == [PaidTo(p, m, carry + 10000)]
  {
    OneAccountComputes(p, m, i, carry);
    var inputs := OneAccount(p, m);
    assert inputs.receipts[..0] == [] && inputs.awards[..0] == [];
    assert ReceiptsIn(inputs.receipts, m) == [Sales(m)];
    assert ApprovedAwards(inputs.awards) == [OneAward(m)];
  }

  lemma AfterItsMonth(rounds: map<Month, Round>, a: Attempt, i: int)
    requires Numbered(a.month, i) && a.month !in rounds && a.closedAt.month == i + 1
    ensures PreparedOf(rounds, a) == AssembleOf(rounds, a.inputs, a.month)
  {
  }

  lemma OneCreated(stored: map<string, Obligation>, o: Obligation, t: Instant)
    requires o.ID() !in stored
    ensures CreateFirst(stored, [o], 1, t) == stored[o.ID() := Stamped(o, t)]
    ensures IDs([o]) == [o.ID()]
  {
    assert CreateFirst(stored, [o], 0, t) == stored;
  }

  lemma ClosingStops(b: Books, a: Attempt, os: seq<Obligation>)
    requires Computes(b.rounds, a, os) && a.stop <= |os|
    ensures CloseOf(b, a)
              == (b.(obligations := CreateFirst(b.obligations, os, a.stop, a.closedAt)), Err(Stopped))
  {
  }

  lemma ClosingSucceeds(b: Books, a: Attempt, os: seq<Obligation>)
    requires Computes(b.rounds, a, os) && a.stop > |os|
    ensures CloseOf(b, a).1.Ok?
    ensures CloseOf(b, a).0 == Books(b.rounds[a.month := CloseOf(b, a).1.value],
                                     CreateFirst(b.obligations, os, |os|, a.closedAt))
    ensures CloseOf(b, a).1.value.entitlements == PreparedOf(b.rounds, a).value.0.entitlements
    ensures CloseOf(b, a).1.value.unallocatedCents == PreparedOf(b.rounds, a).value.0.unallocatedCents
  {
  }

  // A first attempt that stops after the obligation, and a second an hour later that succeeds.
  function Stopping(p: Program, m: Month, i: int): Attempt
    requires Valid(m)
  {
    Attempt(m, Instant(i + 1, 0), "ops", OneAccount(p, m), 1)
  }

  function Retrying(p: Program, m: Month, i: int): Attempt
    requires Valid(m)
  {
    Attempt(m, Instant(i + 1, 1), "ops", OneAccount(p, m), 2)
  }

  lemma StoppingLeaves(p: Program, m: Month, i: int)
    requires Numbered(m, i) && InEffect(p, m) && p.poolBps == 10000 && p.currency == "USD"
    ensures var o := PaidTo(p, m, 10000);
            CloseOf(EMPTY, Stopping(p, m, i))
              == (Books(map[], map[o.ID() := Stamped(o, Instant(i + 1, 0))]), Err(Stopped))
  {
    var a, o := Stopping(p, m, i), PaidTo(p, m, 10000);
    OneAccountAssembles(map[], p, m, i, 0);
    AfterItsMonth(map[], a, i);
    OneCreated(map[], o, a.closedAt);
    ClosingStops(EMPTY, a, [o]);
  }

  // Creating an obligation that is there changes nothing.
  lemma OneKept(stored: map<string, Obligation>, o: Obligation, t: Instant)
    requires o.ID() in stored
    ensures CreateFirst(stored, [o], 1, t) == stored
  {
    assert CreateFirst(stored, [o], 0, t) == stored;
  }

  lemma RetryKeeps(b: Books, p: Program, m: Month, i: int, carry: nat)
    requires Numbered(m, i) && m !in b.rounds && InEffect(p, m) && p.poolBps == 10000 && p.currency == "USD"
    requires CarryforwardOf(b.rounds, m) == Ok(carry) && ObligationID(m, "ada") in b.obligations
    ensures Computes(b.rounds, Retrying(p, m, i), [PaidTo(p, m, carry + 10000)])
    ensures CloseOf(b, Retrying(p, m, i)).1.Ok?
    ensures CloseOf(b, Retrying(p, m, i)).0
              == Books(b.rounds[m := CloseOf(b, Retrying(p, m, i)).1.value], b.obligations)
    ensures CloseOf(b, Retrying(p, m, i)).1.value.AllocatedCents() == carry + 10000
  {
    var a, o := Retrying(p, m, i), PaidTo(p, m, carry + 10000);
    OneAccountAssembles(b.rounds, p, m, i, carry);
    AfterItsMonth(b.rounds, a, i);
    OneKept(b.obligations, o, a.closedAt);
    ClosingSucceeds(b, a, [o]);
    PreparedObligations(b.rounds, a);
    assert [o][..0] == [];
    assert SumBy([o], Owing()) == carry + 10000;
  }

  // The obligation kept from the first attempt is not the one the second computes.
  lemma LeftoverDiffers(i: int)
    requires 0 <= i < MONTH_COUNT - 1
    ensures Valid(FromIndex(i))
    ensures var p, m := ProgramFrom(i), FromIndex(i);
            var first, second, o := Stopping(p, m, i), Retrying(p, m, i), PaidTo(p, m, 10000);
            var before, end := CloseOf(EMPTY, first).0, CloseOf(CloseOf(EMPTY, first).0, second).0;
            && CloseOf(EMPTY, first).1.Err? && CloseOf(before, second).1.Ok?
            && Computes(before.rounds, second, [o]) && o.ID() in end.obligations
            && end.obligations[o.ID()] != Stamped(o, second.closedAt)
  {
    MonthInEffect(i, i);
    var p, m := ProgramFrom(i), FromIndex(i);
    StoppingLeaves(p, m, i);
    RetryKeeps(CloseOf(EMPTY, Stopping(p, m, i)).0, p, m, i, 0);
  }

  // ----- a month that an earlier one overtakes

  // The sales of a month in which nobody has credits.
  function Unpaid(p: Program, m: Month, i: int): Attempt {
    Attempt(m, Instant(i + 1, 0), "ops", Inputs([p], [Sales(m)], []), 1)
  }

  lemma UnpaidComputes(p: Program, m: Month)
    requires Valid(m) && InEffect(p, m) && p.poolBps == 10000 && p.currency == "USD"
    ensures ComputeRoundOf(p, m, [Sales(m)], [], 0).Ok?
    ensures var (round, os) := ComputeRoundOf(p, m, [Sales(m)], [], 0).value;
            os == [] && round.unallocatedCents == 10000 && round.month == m
  {
    SalesNet(p, m);
    assert PoolShareCents(10000, 10000) == 10000;
    AllocationListsCredits(10000, map[], AllocationOf(10000, map[]).value);
    assert ShareOut(p, m, 10000, 10000, map[], 0).Ok?;
  }

  lemma UnpaidCloses(b: Books, p: Program, m: Month, i: int)
    requires b.rounds == map[] && Numbered(m, i)
    requires InEffect(p, m) && p.poolBps == 10000 && p.currency == "USD"
    ensures CloseOf(b, Unpaid(p, m, i)).1.Ok?
    ensures CloseOf(b, Unpaid(p, m, i)).1.value.unallocatedCents == 10000
    ensures CloseOf(b, Unpaid(p, m, i)).0
              == Books(map[m := CloseOf(b, Unpaid(p, m, i)).1.value], b.obligations)
  {
    var a := Unpaid(p, m, i);
    UnpaidComputes(p, m);
    AfterItsMonth(map[], a, i);
    assert a.inputs.receipts[..0] == [];
    assert ReceiptsIn(a.inputs.receipts, m) == [Sales(m)];
    assert AssembleOf(map[], a.inputs, m).Ok?;
    ClosingSucceeds(b, a, []);
  }

  // An attempt on month m stops half-way; then the month before it is closed, the first of all,
  // and leaves its sales to be carried over; then m is closed.
  ghost predicate IsOvertaken(p: Program, n: Month, m: Month, i: int)
    requires Valid(n) && Valid(m)
  {
    var first, second, third := Stopping(p, m, i + 1), Unpaid(p, n, i), Retrying(p, m, i + 1);
    var b := CloseOf(CloseOf(EMPTY, first).0, second).0;
    var end := CloseOf(b, third).0;
    && CloseOf(EMPTY, first).1.Err? && CloseOf(CloseOf(EMPTY, first).0, second).1.Ok?
    && CloseOf(b, third).1.Ok? && Frozen(first, third)
    && m in end.rounds && end.rounds[m].AllocatedCents() == 20000
    && end.obligations.Keys == {ObligationID(m, "ada")}
    && end.obligations[ObligationID(m, "ada")].amountCents == 10000
  }

  lemma Overtaken(p: Program, n: Month, m: Month, i: int)
    requires Numbered(n, i) && Numbered(m, i + 1) && Prev(m) == n
    requires InEffect(p, n) && InEffect(p, m) && p.poolBps == 10000 && p.currency == "USD"
    ensures IsOvertaken(p, n, m, i)
  {
    var b := CloseOf(EMPTY, Stopping(p, m, i + 1)).0;
    StoppingLeaves(p, m, i + 1);
    UnpaidCloses(b, p, n, i);
    RetryKeeps(CloseOf(b, Unpaid(p, n, i)).0, p, m, i + 1, 10000);
  }

  lemma Neighbours(i: int, j: int)
    requires 0 <= i && j == i + 1 && j < MONTH_COUNT
    ensures Valid(FromIndex(j)) && Prev(FromIndex(j)) == FromIndex(i)
  {
    AddToIndex(j, -1);
    assert j + -1 == i;
  }

  lemma MonthPair(i: int, j: int) returns (p: Program, n: Month, m: Month)
    requires 0 <= i && j == i + 1 && j < MONTH_COUNT - 1
    ensures Numbered(n, i) && Numbered(m, j) && Prev(m) == n
    ensures InEffect(p, n) && InEffect(p, m) && p.poolBps == 10000 && p.currency == "USD"
  {
    p, n, m := ProgramFrom(i), FromIndex(i), FromIndex(j);
    MonthInEffect(i, i);
    MonthInEffect(i, j);
    Neighbours(i, j);
  }

  // The inputs of the overtaken month are the same both times, but its one obligation still pays
  // half of what its round allocates.
  lemma OvertakenMonth(i: int) returns (p: Program, n: Month, m: Month)
    requires 0 <= i < MONTH_COUNT - 2
    ensures Numbered(n, i) && Numbered(m, i + 1) && IsOvertaken(p, n, m, i)
  {
    p, n, m := MonthPair(i, i + 1);
    Overtaken(p, n, m, i);
  }
}
