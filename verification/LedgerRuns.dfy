/** Chains of closings, whatever months are called and whatever is known of a round. */
module Chains {
  import opened Engine
  import opened Policy
  import opened Sums

  // A closing, by the index of its month.
  datatype Closed = Closed(index: int, program: Program, round: Round)

  // A name for each month index, of which those in [0, count) differ.
  datatype Calendar = Calendar(count: nat, name: int -> string)
  {
    ghost predicate Names() {
      forall i, j | 0 <= i < count && 0 <= j < count && name(i) == name(j) :: i == j
    }
  }

  ghost predicate Consecutive(log: seq<Closed>, count: nat) {
    forall i | 0 <= i < |log| :: 0 <= log[i].index < count && log[i].index == log[0].index + i
  }

  // The log lists exactly the stored rounds.
  ghost predicate Lists(log: seq<Closed>, rounds: map<string, Round>, name: int -> string) {
    && (forall i | 0 <= i < |log| :: Stored(log[i], rounds, name))
    && (forall k | k in rounds :: exists i :: 0 <= i < |log| && log[i].round.month == k)
  }

  ghost predicate Stored(c: Closed, rounds: map<string, Round>, name: int -> string) {
    c.round.month == name(c.index) && c.round.month in rounds && rounds[c.round.month] == c.round
  }

  // Each round carries over what the one before left unallocated.
  ghost predicate Carries(log: seq<Closed>) {
    forall i | 0 <= i < |log| :: log[i].round.carryforwardCents == LeftBefore(log, i)
  }

  ghost function LeftBefore(log: seq<Closed>, i: nat): int
    requires i <= |log|
  {
    if i == 0 then 0 else log[i - 1].round.unallocatedCents
  }

  ghost predicate Linked(rounds: map<string, Round>, log: seq<Closed>, c: Calendar) {
    Consecutive(log, c.count) && Lists(log, rounds, c.name) && Carries(log)
  }

  // The stored months are those of the log's indices.
  lemma StoredMonths(rounds: map<string, Round>, log: seq<Closed>, c: Calendar, j: int)
    requires c.Names() && Consecutive(log, c.count) && Lists(log, rounds, c.name) && 0 <= j < c.count
    ensures c.name(j) in rounds <==> log != [] && log[0].index <= j < log[0].index + |log|
    ensures c.name(j) in rounds ==> rounds[c.name(j)] == log[j - log[0].index].round
  {
    if c.name(j) in rounds {
      var i :| 0 <= i < |log| && log[i].round.month == c.name(j);
      assert Stored(log[i], rounds, c.name);
    }
    if log != [] && log[0].index <= j < log[0].index + |log| {
      assert Stored(log[j - log[0].index], rounds, c.name);
    }
  }

  // Whether the month before j is stored, and what it left.
  ghost predicate PrevIs(rounds: map<string, Round>, log: seq<Closed>, j: int, prev: string) {
    && (prev in rounds <==> log != [] && j == log[0].index + |log|)
    && (prev in rounds ==> rounds[prev].unallocatedCents == LeftBefore(log, |log|))
  }

  // Before a month that is not stored, only the last month of the chain can be.
  lemma PrevIsLast(rounds: map<string, Round>, log: seq<Closed>, c: Calendar, j: int)
    requires c.Names() && Linked(rounds, log, c) && 0 <= j < c.count && c.name(j) !in rounds
    requires j == 0 ==> c.name(-1) !in rounds
    ensures PrevIs(rounds, log, j, c.name(j - 1)) && (log != [] ==> log[0].index != j)
  {
    StoredMonths(rounds, log, c, j);
    if j > 0 {
      StoredMonths(rounds, log, c, j - 1);
    }
  }

  lemma StoredStays(c: Closed, rounds: map<string, Round>, name: int -> string, entry: Closed)
    requires Stored(c, rounds, name) && entry.round.month !in rounds
    ensures Stored(c, rounds[entry.round.month := entry.round], name)
  {
  }

  lemma ListsLast(rounds: map<string, Round>, name: int -> string, log: seq<Closed>,
                  entry: Closed, longer: seq<Closed>)
    requires Lists(log, rounds, name) && longer == log + [entry]
    requires entry.round.month !in rounds && entry.round.month == name(entry.index)
    ensures Lists(longer, rounds[entry.round.month := entry.round], name)
  {
    var more := rounds[entry.round.month := entry.round];
    forall i | 0 <= i < |longer| ensures Stored(longer[i], more, name) {
      if i < |log| {
        assert longer[i] == log[i];
        StoredStays(log[i], rounds, name, entry);
      }
    }
    forall k | k in more ensures exists i :: 0 <= i < |longer| && longer[i].round.month == k {
      if k in rounds {
        var i :| 0 <= i < |log| && log[i].round.month == k;
        assert longer[i] == log[i];
      } else {
        assert longer[|log|].round.month == k;
      }
    }
  }

  lemma ListsFirst(rounds: map<string, Round>, name: int -> string, log: seq<Closed>,
                   entry: Closed, longer: seq<Closed>)
    requires Lists(log, rounds, name) && longer == [entry] + log
    requires entry.round.month !in rounds && entry.round.month == name(entry.index)
    ensures Lists(longer, rounds[entry.round.month := entry.round], name)
  {
    var more := rounds[entry.round.month := entry.round];
    forall i | 0 <= i < |longer| ensures Stored(longer[i], more, name) {
      if i > 0 {
        assert longer[i] == log[i - 1];
        StoredStays(log[i - 1], rounds, name, entry);
      }
    }
    forall k | k in more ensures exists i :: 0 <= i < |longer| && longer[i].round.month == k {
      if k in rounds {
        var i :| 0 <= i < |log| && log[i].round.month == k;
        assert longer[i + 1] == log[i];
      } else {
        assert longer[0].round.month == k;
      }
    }
  }

  lemma AppendConsecutive(log: seq<Closed>, entry: Closed, count: nat)
    requires Consecutive(log, count) && 0 <= entry.index < count
    requires log != [] ==> entry.index == log[0].index + |log|
    ensures Consecutive(log + [entry], count)
  {
  }

  lemma AppendCarries(log: seq<Closed>, entry: Closed)
    requires Carries(log)
    requires entry.round.carryforwardCents == LeftBefore(log, |log|)
    ensures Carries(log + [entry])
  {
    var longer := log + [entry];
    forall i | 0 <= i < |longer|
      ensures longer[i].round.carryforwardCents == LeftBefore(longer, i)
    {
      assert i < |log| ==> longer[i] == log[i];
      assert LeftBefore(longer, i) == LeftBefore(log, i);
    }
  }

  lemma PrependConsecutive(log: seq<Closed>, entry: Closed, count: nat)
    requires Consecutive(log, count) && log != [] && 0 <= entry.index && entry.index + 1 == log[0].index
    ensures Consecutive([entry] + log, count)
  {
    var longer := [entry] + log;
    forall i | 0 <= i < |longer|
      ensures 0 <= longer[i].index < count && longer[i].index == longer[0].index + i
    {
      assert i > 0 ==> longer[i] == log[i - 1];
    }
  }

  lemma PrependCarries(log: seq<Closed>, entry: Closed)
    requires Carries(log) && entry.round.carryforwardCents == 0 && entry.round.unallocatedCents == 0
    ensures Carries([entry] + log)
  {
    var longer := [entry] + log;
    forall i | 0 <= i < |longer|
      ensures longer[i].round.carryforwardCents == LeftBefore(longer, i)
    {
      assert i > 0 ==> longer[i] == log[i - 1] && LeftBefore(longer, i) == LeftBefore(log, i - 1);
    }
  }

  lemma Append(rounds: map<string, Round>, log: seq<Closed>, c: Calendar, entry: Closed)
    requires Linked(rounds, log, c) && 0 <= entry.index < c.count
    requires entry.round.month !in rounds && entry.round.month == c.name(entry.index)
    requires log != [] ==> entry.index == log[0].index + |log|
    requires entry.round.carryforwardCents == LeftBefore(log, |log|)
    ensures Linked(rounds[entry.round.month := entry.round], log + [entry], c)
  {
    var longer := log + [entry];
    ListsLast(rounds, c.name, log, entry, longer);
    AppendCarries(log, entry);
    AppendConsecutive(log, entry, c.count);
  }

  lemma Prepend(rounds: map<string, Round>, log: seq<Closed>, c: Calendar, entry: Closed)
    requires Linked(rounds, log, c) && log != []
    requires entry.round.month !in rounds && entry.round.month == c.name(entry.index)
    requires 0 <= entry.index && entry.index + 1 == log[0].index
    requires entry.round.carryforwardCents == 0 && entry.round.unallocatedCents == 0
    ensures Linked(rounds[entry.round.month := entry.round], [entry] + log, c)
  {
    var longer := [entry] + log;
    ListsFirst(rounds, c.name, log, entry, longer);
    PrependCarries(log, entry);
    PrependConsecutive(log, entry, c.count);
  }

  // A month added before the first leaves a chain only just before it, with nothing to carry.
  lemma EarlyEntry(rounds: map<string, Round>, log: seq<Closed>, c: Calendar,
                   entry: Closed, log': seq<Closed>)
    requires c.Names() && Linked(rounds, log, c) && log != []
    requires 0 <= entry.index < log[0].index && entry.round.month == c.name(entry.index)
    requires Linked(rounds[entry.round.month := entry.round], log', c)
    ensures entry.index + 1 == log[0].index && entry.round.unallocatedCents == 0
  {
    var after, e, f := rounds[entry.round.month := entry.round], entry.index, log[0].index;
    StoredMonths(after, log', c, e);
    StoredMonths(rounds, log, c, f);
    StoredMonths(after, log', c, f);
    StoredMonths(after, log', c, e + 1);
    StoredMonths(rounds, log, c, e + 1);
    assert c.name(e + 1) != c.name(e) && c.name(f) != c.name(e);
    assert e + 1 == f;
    var i := f - log'[0].index;
    assert log'[i].round == log[0].round && log'[i - 1].round == entry.round;
    assert LeftBefore(log', i) == LeftBefore(log, 0) == 0;
  }

  ghost predicate HasChain(rounds: map<string, Round>, c: Calendar) {
    exists log :: Linked(rounds, log, c)
  }

  // ... and just before it, with nothing to carry, it does.
  lemma PrependedHasChain(rounds: map<string, Round>, log: seq<Closed>, c: Calendar,
                          entry: Closed, after: map<string, Round>)
    requires Linked(rounds, log, c) && log != [] && after == rounds[entry.round.month := entry.round]
    requires entry.round.month !in rounds && entry.round.month == c.name(entry.index)
    requires 0 <= entry.index && entry.index + 1 == log[0].index
    requires entry.round.carryforwardCents == 0 && entry.round.unallocatedCents == 0
    ensures HasChain(after, c)
  {
    Prepend(rounds, log, c, entry);
  }

  lemma EarlyEntryIff(rounds: map<string, Round>, log: seq<Closed>, c: Calendar,
                      entry: Closed, after: map<string, Round>)
    requires c.Names() && Linked(rounds, log, c) && log != []
    requires 0 <= entry.index < log[0].index && entry.round.month == c.name(entry.index)
    requires entry.round.month !in rounds && entry.round.carryforwardCents == 0
    requires after == rounds[entry.round.month := entry.round]
    ensures HasChain(after, c) <==>
            entry.index + 1 == log[0].index && entry.round.unallocatedCents == 0
  {
    if entry.index + 1 == log[0].index && entry.round.unallocatedCents == 0 {
      PrependedHasChain(rounds, log, c, entry, after);
    } else if HasChain(after, c) {
      EarlyEntryIsNext(rounds, log, c, entry, after);
    }
  }

  lemma EarlyEntryIsNext(rounds: map<string, Round>, log: seq<Closed>, c: Calendar,
                         entry: Closed, after: map<string, Round>)
    requires c.Names() && Linked(rounds, log, c) && log != []
    requires 0 <= entry.index < log[0].index && entry.round.month == c.name(entry.index)
    requires after == rounds[entry.round.month := entry.round] && HasChain(after, c)
    ensures entry.index + 1 == log[0].index && entry.round.unallocatedCents == 0
  {
    var log' :| Linked(after, log', c);
    EarlyEntry(rounds, log, c, entry, log');
  }

  lemma {:induction false} Telescope(log: seq<Closed>, given: Closed -> int, added: Closed -> int)
    requires Carries(log)
    requires forall i | 0 <= i < |log| ::
               given(log[i]) + log[i].round.unallocatedCents == log[i].round.carryforwardCents + added(log[i])
    ensures SumBy(log, given) + LeftBefore(log, |log|) == SumBy(log, added)
  {
    if log != [] {
      var before := log[..|log| - 1];
      forall i | 0 <= i < |before| ensures before[i].round.carryforwardCents == LeftBefore(before, i) {
        assert before[i] == log[i] && LeftBefore(before, i) == LeftBefore(log, i);
      }
      Telescope(before, given, added);
    }
  }
}

/** What holds over whole runs of round closings (contributor/ledger.go). */
module LedgerRuns {
  import opened Allocation
  import opened Chains
  import opened Closing
  import opened Engine
  import opened Months
  import opened Obligations
  import opened Policy
  import opened Results
  import opened Sums
  import opened Verify

  // ----- what a successful attempt has found out

  lemma PreparedFacts(rounds: map<Month, Round>, a: Attempt)
    requires PreparedOf(rounds, a).Ok?
    ensures a.month !in rounds && Valid(a.month) && Valid(Next(a.month))
    ensures !BeforeMonth(a.closedAt, Index(Next(a.month)))
    ensures ProgramFor(a.inputs.programs, a.month).Some? && CarryforwardOf(rounds, a.month).Ok?
    ensures ComputeRoundOf(ProgramFor(a.inputs.programs, a.month).value, a.month,
                           ReceiptsIn(a.inputs.receipts, a.month), ApprovedAwards(a.inputs.awards),
                           CarryforwardOf(rounds, a.month).value) == Ok(PreparedOf(rounds, a).value)
  {
  }

  lemma CloseFacts(b: Books, a: Attempt)
    requires CloseOf(b, a).1.Ok?
    ensures PreparedOf(b.rounds, a).Ok?
    ensures CloseOf(b, a).1.value
              == PreparedOf(b.rounds, a).value.0.(closedAt := Some(a.closedAt), closedBy := a.closedBy)
    ensures CloseOf(b, a).0.rounds == b.rounds[a.month := CloseOf(b, a).1.value]
  {
  }

  lemma {:induction false} ListedOfMonth(receipts: seq<Receipt>, m: Month, r: Receipt)
    ensures r in ReceiptsIn(receipts, m) <==> r in receipts && r.month == m
  {
    ReceiptsInAre(receipts, m, r);
    assert r in ReceiptsIn(receipts, m) <==> r in multiset(ReceiptsIn(receipts, m));
    assert r in receipts <==> r in multiset(receipts);
  }

  lemma {:induction false} ListedApproved(awards: seq<Award>, a: Award)
    ensures a in ApprovedAwards(awards) <==> a in awards && a.status == Approved
  {
    ApprovedAwardsAre(awards, a);
    assert a in ApprovedAwards(awards) <==> a in multiset(ApprovedAwards(awards));
    assert a in awards <==> a in multiset(awards);
  }

  // Everything listed for the month is good.
  ghost predicate GoodInputs(inputs: Inputs, p: Program, m: Month) {
    && GoodProgram(p)
    && (forall r | r in inputs.receipts && r.month == m :: GoodReceipt(r, p, m))
    && (forall a | a in inputs.awards && a.status == Approved :: GoodAward(a))
  }

  // An attempt gets as far as writing exactly if its month is open, has ended, follows a closed
  // month or none, and all that is listed for it is good.
  lemma PreparedIff(b: Books, a: Attempt)
    ensures PreparedOf(b.rounds, a).Ok? <==>
            && a.month !in b.rounds && Valid(a.month) && a.month != FromIndex(MONTH_COUNT - 1)
            && a.closedAt.month > Index(a.month)
            && ProgramFor(a.inputs.programs, a.month).Some?
            && GoodInputs(a.inputs, ProgramFor(a.inputs.programs, a.month).value, a.month)
            && (Prev(a.month) in b.rounds || forall k | k in b.rounds :: !Before(b.rounds[k].month, a.month))
  {
    if Valid(a.month) {
      LastMonth(a.month);
      AddIsAddition(a.month, 1);
      if ProgramFor(a.inputs.programs, a.month).Some? && CarryforwardOf(b.rounds, a.month).Ok? {
        GoodInputsCompute(a.inputs, ProgramFor(a.inputs.programs, a.month).value, a.month,
                          CarryforwardOf(b.rounds, a.month).value);
      }
    }
  }

  lemma {:induction false} GoodInputsCompute(inputs: Inputs, p: Program, m: Month, carry: int)
    requires Valid(m) && ProgramFor(inputs.programs, m) == Some(p)
    ensures ComputeRoundOf(p, m, ReceiptsIn(inputs.receipts, m), ApprovedAwards(inputs.awards), carry).Ok? <==>
            GoodInputs(inputs, p, m)
  {
    ComputesIff(p, m, ReceiptsIn(inputs.receipts, m), ApprovedAwards(inputs.awards), carry);
    ProgramForIsLatest(inputs.programs, m);
    if Valid(p.effectiveFrom) {
      BeforeIsChronological(m, p.effectiveFrom);
    }
    forall r ensures r in ReceiptsIn(inputs.receipts, m) <==> r in inputs.receipts && r.month == m {
      ListedOfMonth(inputs.receipts, m, r);
    }
    forall a ensures a in ApprovedAwards(inputs.awards) <==> a in inputs.awards && a.status == Approved {
      ListedApproved(inputs.awards, a);
    }
  }

  // A round closes only after its month, under the program in effect and with the carryforward
  // of the month before, and is reproducible from what it records.
  lemma ClosedRoundFacts(b: Books, a: Attempt)
    requires CloseOf(b, a).1.Ok?
    ensures a.month !in b.rounds && Valid(a.month) && a.closedAt.month > Index(a.month)
    ensures CarryforwardOf(b.rounds, a.month).Ok? && ProgramFor(a.inputs.programs, a.month).Some?
    ensures var round := CloseOf(b, a).1.value;
            && round.month == a.month
            && Reproducible(ProgramFor(a.inputs.programs, a.month).value, round)
            && round.carryforwardCents == CarryforwardOf(b.rounds, a.month).value
            && round.netReceiptsCents == SumBy(a.inputs.receipts, NetIn(a.month))
  {
    NetOfMonth(a.inputs.receipts, a.month);
    CloseFacts(b, a);
    PreparedFacts(b.rounds, a);
    var (round, os) := PreparedOf(b.rounds, a).value;
    ComputedIsClosed(
      ProgramFor(a.inputs.programs, a.month).value, a.month, ReceiptsIn(a.inputs.receipts, a.month),
      ApprovedAwards(a.inputs.awards), CarryforwardOf(b.rounds, a.month).value, round, os,
      Some(a.closedAt), a.closedBy);
    AddIsAddition(a.month, 1);
  }

  // It credits every account with what the listed awards give it in the month, and lists just
  // the accounts with credits.
  lemma ClosedRoundCredits(b: Books, a: Attempt, account: string)
    requires CloseOf(b, a).1.Ok?
    ensures Valid(a.month)
    ensures var earned := SumBy(a.inputs.awards, EarnedIn(Index(a.month), account));
            var ents := CloseOf(b, a).1.value.entitlements;
            && (earned > 0 <==> exists i :: 0 <= i < |ents| && ents[i].account == account)
            && (forall i | 0 <= i < |ents| && ents[i].account == account :: ents[i].credits == earned)
  {
    CloseFacts(b, a);
    PreparedFacts(b.rounds, a);
    var (round, os) := PreparedOf(b.rounds, a).value;
    var awards := ApprovedAwards(a.inputs.awards);
    ComputedParts(ProgramFor(a.inputs.programs, a.month).value, a.month,
                  ReceiptsIn(a.inputs.receipts, a.month), awards,
                  CarryforwardOf(b.rounds, a.month).value, round, os);
    CreditsArePositive(awards, a.month);
    CreditsOfMonth(a.inputs.awards, a.month, account);
    AllocationListsCredits(Allocatable(round.poolCents), CreditsFrom(awards, a.month), round.entitlements);
  }

  lemma {:induction false} ComputedIsClosed(
    p: Program, m: Month, receipts: seq<Receipt>, awards: seq<Award>, carry: int,
    round: Round, os: seq<Obligation>, closedAt: Option<Instant>, closedBy: string)
    requires ComputeRoundOf(p, m, receipts, awards, carry) == Ok((round, os))
    ensures round.month == m && round.carryforwardCents == carry
    ensures round.netReceiptsCents == SumBy(receipts, NetOf())
    ensures Reproducible(p, round.(closedAt := closedAt, closedBy := closedBy))
  {
    ComputedParts(p, m, receipts, awards, carry, round, os);
    ComputedRoundsAreReproducible(p, m, receipts, awards, carry, round, os, closedAt, closedBy);
  }

  // ----- the chain of closed months

  function MonthNames(): Calendar {
    Calendar(MONTH_COUNT, (i: int) => FromIndex(i))
  }

  // The log lists the stored rounds: consecutive months, each carrying over what its
  // predecessor left unallocated.
  ghost predicate Chained(rounds: map<Month, Round>, log: seq<Closed>) {
    Linked(rounds, log, MonthNames())
  }

  // What an attempt adds to the log.
  ghost function LogOf(b: Books, a: Attempt): seq<Closed> {
    if CloseOf(b, a).1.Err? then []
    else
      ClosedRoundFacts(b, a);
      [Closed(Index(a.month), ProgramFor(a.inputs.programs, a.month).value, CloseOf(b, a).1.value)]
  }

  ghost function RunAll(b: Books, attempts: seq<Attempt>): Books
    decreases |attempts|
  {
    if attempts == [] then b else RunAll(CloseOf(b, attempts[0]).0, attempts[1..])
  }

  ghost function LogAll(b: Books, attempts: seq<Attempt>): seq<Closed>
    decreases |attempts|
  {
    if attempts == [] then []
    else LogOf(b, attempts[0]) + LogAll(CloseOf(b, attempts[0]).0, attempts[1..])
  }

  ghost predicate NotBefore(log: seq<Closed>, a: Attempt) {
    log != [] ==> !Before(a.month, log[0].round.month)
  }

  // No attempt is for a month before the first closed one.
  ghost predicate NeverBeforeFirst(b: Books, log: seq<Closed>, attempts: seq<Attempt>)
    decreases |attempts|
  {
    attempts != [] ==>
      && NotBefore(log, attempts[0])
      && NeverBeforeFirst(CloseOf(b, attempts[0]).0, log + LogOf(b, attempts[0]), attempts[1..])
  }

  lemma FailureKeepsRounds(b: Books, a: Attempt)
    requires CloseOf(b, a).1.Err?
    ensures CloseOf(b, a).0.rounds == b.rounds
  {
  }

  lemma MonthsAreNamed()
    ensures MonthNames().Names()
  {
    forall i, j | 0 <= i < MONTH_COUNT && 0 <= j < MONTH_COUNT && FromIndex(i) == FromIndex(j) ensures i == j {
      ParseFromIndex(i);
      ParseFromIndex(j);
    }
  }

  lemma NamesInOrder(i: int, j: int)
    requires 0 <= i < MONTH_COUNT && 0 <= j < MONTH_COUNT
    ensures Before(FromIndex(i), FromIndex(j)) <==> i < j
  {
    ParseFromIndex(i);
    ParseFromIndex(j);
    BeforeIsChronological(FromIndex(i), FromIndex(j));
  }

  lemma RoundBefore(rounds: map<Month, Round>, log: seq<Closed>, j: int)
    requires Chained(rounds, log) && 0 <= j < MONTH_COUNT
    ensures SomeRoundBefore(rounds, FromIndex(j)) <==> log != [] && log[0].index < j
  {
    if log != [] && log[0].index < j {
      assert Stored(log[0], rounds, MonthNames().name);
      NamesInOrder(log[0].index, j);
    }
    if k :| k in rounds && Before(rounds[k].month, FromIndex(j)) {
      var i :| 0 <= i < |log| && log[i].round.month == k;
      assert Stored(log[i], rounds, MonthNames().name);
      NamesInOrder(log[i].index, j);
    }
  }

  lemma NoRoundBeforeYearZero(rounds: map<Month, Round>, log: seq<Closed>)
    requires Chained(rounds, log)
    ensures MonthNames().name(-1) !in rounds
  {
    if FromIndex(-1) in rounds {
      var i :| 0 <= i < |log| && log[i].round.month == FromIndex(-1);
      assert Stored(log[i], rounds, MonthNames().name);
      ParseFromIndex(log[i].index);
      ParseFromIndex(-1);
    }
  }

  // The carryforward of a month that is not stored: what the month before left; nothing before
  // the first month; refused after a gap.
  lemma CarryforwardIs(rounds: map<Month, Round>, log: seq<Closed>, j: int)
    requires Chained(rounds, log) && 0 <= j < MONTH_COUNT && FromIndex(j) !in rounds
    ensures Valid(FromIndex(j))
    ensures CarryforwardOf(rounds, FromIndex(j))
              == if log == [] || j < log[0].index then Ok(0)
                 else if j == log[0].index + |log| then Ok(LeftBefore(log, |log|))
                 else Err(Gap)
  {
    AddToIndex(j, -1);
    RoundBefore(rounds, log, j);
    PrevMonth(rounds, log, j, FromIndex(j), FromIndex(j - 1));
    CarryforwardCases(rounds, log, j, FromIndex(j), FromIndex(j - 1));
  }

  lemma PrevMonth(rounds: map<Month, Round>, log: seq<Closed>, j: int, m: Month, prev: Month)
    requires Chained(rounds, log) && 0 <= j < MONTH_COUNT
    requires m == MonthNames().name(j) && prev == MonthNames().name(j - 1) && m !in rounds
    ensures PrevIs(rounds, log, j, prev) && (log != [] ==> log[0].index != j)
  {
    NoRoundBeforeYearZero(rounds, log);
    MonthsAreNamed();
    PrevIsLast(rounds, log, MonthNames(), j);
  }

  lemma CarryforwardCases(rounds: map<Month, Round>, log: seq<Closed>, j: int, m: Month, prev: Month)
    requires Valid(m) && Prev(m) == prev && PrevIs(rounds, log, j, prev)
    requires SomeRoundBefore(rounds, m) <==> log != [] && log[0].index < j
    requires log != [] ==> log[0].index != j
    ensures CarryforwardOf(rounds, m)
              == if log == [] || j < log[0].index then Ok(0)
                 else if j == log[0].index + |log| then Ok(LeftBefore(log, |log|))
                 else Err(Gap)
  {
  }

  // What a successful attempt appends or prepends.
  lemma EntryFacts(b: Books, log: seq<Closed>, a: Attempt) returns (entry: Closed)
    requires Chained(b.rounds, log) && CloseOf(b, a).1.Ok?
    ensures LogOf(b, a) == [entry] && Valid(a.month) && entry.index == Index(a.month)
    ensures 0 <= entry.index < MONTH_COUNT && entry.round.month == MonthNames().name(entry.index)
    ensures entry.round.month !in b.rounds && entry.round == CloseOf(b, a).1.value
    ensures CloseOf(b, a).0.rounds == b.rounds[entry.round.month := entry.round]
    ensures log != [] ==> (NotBefore(log, a) <==> log[0].index <= entry.index)
    ensures entry.round.carryforwardCents
              == if log == [] || entry.index < log[0].index then 0 else LeftBefore(log, |log|)
    ensures log != [] && log[0].index <= entry.index ==> entry.index == log[0].index + |log|
  {
    ClosedRoundFacts(b, a);
    CloseFacts(b, a);
    ValidateIsParse(a.month);
    entry := LogOf(b, a)[0];
    CarryforwardIs(b.rounds, log, entry.index);
    if log != [] {
      assert Stored(log[0], b.rounds, MonthNames().name);
      NamesInOrder(entry.index, log[0].index);
    }
  }

  // A closing that is not before the first closed month succeeds only for the month after the
  // last, and extends the chain.
  lemma CloseExtendsChain(b: Books, log: seq<Closed>, a: Attempt)
    requires Chained(b.rounds, log) && NotBefore(log, a)
    ensures Chained(CloseOf(b, a).0.rounds, log + LogOf(b, a))
    ensures CloseOf(b, a).1.Ok? && log != [] ==>
              Valid(a.month) && Index(a.month) == log[0].index + |log|
  {
    if CloseOf(b, a).1.Err? {
      FailureKeepsRounds(b, a);
      assert log + [] == log;
    } else {
      var entry := EntryFacts(b, log, a);
      Append(b.rounds, log, MonthNames(), entry);
    }
  }

  lemma {:induction false} RunSplits(b: Books, log: seq<Closed>, attempts: seq<Attempt>)
    requires attempts != []
    ensures RunAll(b, attempts) == RunAll(CloseOf(b, attempts[0]).0, attempts[1..])
    ensures log + LogAll(b, attempts)
              == log + LogOf(b, attempts[0]) + LogAll(CloseOf(b, attempts[0]).0, attempts[1..])
  {
    Regroup(log, LogOf(b, attempts[0]), LogAll(CloseOf(b, attempts[0]).0, attempts[1..]));
  }

  lemma Regroup(x: seq<Closed>, y: seq<Closed>, z: seq<Closed>)
    ensures x + y + z == x + (y + z)
  {
  }

  // Over any run, however its attempts fail, the closed months stay contiguous, and each round
  // carries over what the round before it left.
  lemma {:induction false} RunKeepsChain(b: Books, log: seq<Closed>, attempts: seq<Attempt>)
    requires Chained(b.rounds, log) && NeverBeforeFirst(b, log, attempts)
    ensures Chained(RunAll(b, attempts).rounds, log + LogAll(b, attempts))
    decreases |attempts|
  {
    if attempts == [] {
      assert log + [] == log;
    } else {
      var next, more := CloseOf(b, attempts[0]).0, LogOf(b, attempts[0]);
      CloseExtendsChain(b, log, attempts[0]);
      RunKeepsChain(next, log + more, attempts[1..]);
      RunSplits(b, log, attempts);
    }
  }

  ghost predicate AllReproducible(log: seq<Closed>) {
    forall c | c in log :: Reproducible(c.program, c.round)
  }

  // Every round a run closes, in whatever order, is reproducible under its program.
  lemma {:induction false} RunIsReproducible(b: Books, attempts: seq<Attempt>)
    ensures AllReproducible(LogAll(b, attempts))
    decreases |attempts|
  {
    if attempts != [] {
      if CloseOf(b, attempts[0]).1.Ok? {
        ClosedRoundFacts(b, attempts[0]);
      }
      RunIsReproducible(CloseOf(b, attempts[0]).0, attempts[1..]);
    }
  }

  const EMPTY := Books(map[], map[])

  // Conservation, over any run from empty stores that never goes before the first closed month:
  // all that was allocated, and what the last round left, is all that ever entered the pool.
  lemma {:induction false} RunConserves(attempts: seq<Attempt>)
    requires NeverBeforeFirst(EMPTY, [], attempts)
    ensures var log := LogAll(EMPTY, attempts);
            && Chained(RunAll(EMPTY, attempts).rounds, log)
            && SumBy(log, AllocatedBy()) + LeftBefore(log, |log|) == SumBy(log, ShareBy())
  {
    var log := LogAll(EMPTY, attempts);
    RunKeepsChain(EMPTY, [], attempts);
    assert [] + log == log;
    RunIsReproducible(EMPTY, attempts);
    LogConserves(log);
  }

  lemma {:induction false} LogConserves(log: seq<Closed>)
    requires Carries(log) && AllReproducible(log)
    ensures SumBy(log, AllocatedBy()) + LeftBefore(log, |log|) == SumBy(log, ShareBy())
  {
    forall i | 0 <= i < |log|
      ensures AllocatedBy()(log[i]) + log[i].round.unallocatedCents
                == log[i].round.carryforwardCents + ShareBy()(log[i])
    {
      RoundBalances(log[i]);
    }
    Telescope(log, AllocatedBy(), ShareBy());
  }

  function AllocatedBy(): Closed -> int {
    (c: Closed) => SumBy(c.round.entitlements, AmountOf())
  }

  function ShareBy(): Closed -> int {
    (c: Closed) => PoolShareCents(c.program.poolBps, c.round.netReceiptsCents)
  }

  lemma RoundBalances(c: Closed)
    requires Reproducible(c.program, c.round)
    ensures AllocatedBy()(c) + c.round.unallocatedCents == c.round.carryforwardCents + ShareBy()(c)
  {
  }

  // What a reproducible round leaves is its whole pool when that is negative or no credits are
  // active, and nothing otherwise.
  lemma UnallocatedRule(p: Program, r: Round)
    requires Reproducible(p, r)
    ensures r.unallocatedCents == if r.poolCents < 0 || r.totalCredits == 0 then r.poolCents else 0
  {
    var ents, pool := r.entitlements, Allocatable(r.poolCents);
    if ents != [] {
      AscendingIsDistinct(ents);
      ReallocationReproduces(pool, ents);
      AllocationConserves(pool, CreditMap(ents), ents);
      SumByBounds(ents, CreditsIn());
      assert ents[0] in ents;
      assert CreditsIn()(ents[0]) == ents[0].credits;
    }
  }

  // ----- closing before the first closed month

  // With nothing carried over, the month's receipts give the pool nothing, or some credits are
  // active to share out what they give.
  ghost predicate LeavesNothing(a: Attempt) {
    var p := ProgramFor(a.inputs.programs, a.month);
    p.Some? &&
    var share := PoolShareCents(p.value.poolBps, SumBy(ReceiptsIn(a.inputs.receipts, a.month), NetOf()));
    share == 0 || (share > 0 && CreditsFrom(ApprovedAwards(a.inputs.awards), a.month) != map[])
  }

  lemma LeavesNothingIff(b: Books, a: Attempt)
    requires CloseOf(b, a).1.Ok? && Valid(a.month) && CarryforwardOf(b.rounds, a.month) == Ok(0)
    ensures CloseOf(b, a).1.value.unallocatedCents == 0 <==> LeavesNothing(a)
  {
    CloseFacts(b, a);
    PreparedFacts(b.rounds, a);
    var (round, os) := PreparedOf(b.rounds, a).value;
    ComputedLeavesNothing(
      ProgramFor(a.inputs.programs, a.month).value, a.month, ReceiptsIn(a.inputs.receipts, a.month),
      ApprovedAwards(a.inputs.awards), round, os);
  }

  lemma {:induction false} ComputedLeavesNothing(
    p: Program, m: Month, receipts: seq<Receipt>, awards: seq<Award>, round: Round, os: seq<Obligation>)
    requires ComputeRoundOf(p, m, receipts, awards, 0) == Ok((round, os))
    ensures var share := PoolShareCents(p.poolBps, SumBy(receipts, NetOf()));
            round.unallocatedCents == 0 <==>
            share == 0 || (share > 0 && CreditsFrom(awards, m) != map[])
  {
    var credits := CreditsFrom(awards, m);
    RoundAddsUp(p, m, receipts, awards, 0, round, os);
    ComputedParts(p, m, receipts, awards, 0, round, os);
    CreditsArePositive(awards, m);
    TotalIsRecorded(Allocatable(round.poolCents), credits, round.entitlements);
    AllocationListsCredits(Allocatable(round.poolCents), credits, round.entitlements);
    assert (forall a | a in credits :: credits[a] == 0) <==> credits == map[];
  }

  // The code lets a month before the first be closed. The chain survives exactly when the month
  // is the one just before the first and leaves nothing unallocated.
  lemma EarlyCloseKeepsChainIff(b: Books, log: seq<Closed>, a: Attempt)
    requires Chained(b.rounds, log) && !NotBefore(log, a) && CloseOf(b, a).1.Ok?
    ensures Valid(a.month)
    ensures (exists log' :: Chained(CloseOf(b, a).0.rounds, log')) <==>
            Index(a.month) + 1 == log[0].index && LeavesNothing(a)
  {
    var entry := EntryFacts(b, log, a);
    ClosedRoundFacts(b, a);
    LeavesNothingIff(b, a);
    EarlyEntryKeepsChainIff(b.rounds, log, entry, CloseOf(b, a).0.rounds);
  }

  lemma ChainedIffHasChain(rounds: map<Month, Round>)
    ensures (exists log :: Chained(rounds, log)) <==> HasChain(rounds, MonthNames())
  {
    if log :| Linked(rounds, log, MonthNames()) {
      assert Chained(rounds, log);
    }
  }

  lemma EarlyEntryKeepsChainIff(
    rounds: map<Month, Round>, log: seq<Closed>, entry: Closed, after: map<Month, Round>)
    requires Chained(rounds, log) && log != [] && after == rounds[entry.round.month := entry.round]
    requires 0 <= entry.index < log[0].index
    requires entry.round.month !in rounds && entry.round.month == MonthNames().name(entry.index)
    requires entry.round.carryforwardCents == 0
    ensures (exists log' :: Chained(after, log')) <==>
            entry.index + 1 == log[0].index && entry.round.unallocatedCents == 0
  {
    MonthsAreNamed();
    EarlyEntryIff(rounds, log, MonthNames(), entry, after);
    ChainedIffHasChain(after);
  }

  // Such a closing does go through: a month with no receipts and no awards closes long before
  // the first closed month, and leaves rounds that no longer form a chain.
  lemma EarlyCloseBreaksChain(b: Books, log: seq<Closed>, a: Attempt, p: Program)
    requires Chained(b.rounds, log) && log != []
    requires Valid(a.month) && Index(a.month) + 1 < log[0].index
    requires a.inputs == Inputs([p], [], []) && a.stop > 0 && a.closedAt.month > Index(a.month)
    requires p.IsValid() && p.calculationVersion == CALCULATION_VERSION && !Before(a.month, p.effectiveFrom)
    ensures CloseOf(b, a).1.Ok?
    ensures !exists log' :: Chained(CloseOf(b, a).0.rounds, log')
  {
    MonthBeforeChain(b.rounds, log, a.month);
    EmptyMonthCloses(b, a, p);
    EarlyCloseKeepsChainIff(b, log, a);
  }

  lemma MonthBeforeChain(rounds: map<Month, Round>, log: seq<Closed>, m: Month)
    requires Chained(rounds, log) && log != [] && Valid(m) && Index(m) + 1 < log[0].index
    ensures m !in rounds && Valid(Next(m)) && Index(Next(m)) == Index(m) + 1
    ensures CarryforwardOf(rounds, m) == Ok(0) && Before(m, log[0].round.month)
  {
    ValidateIsParse(m);
    AddIsAddition(m, 1);
    MonthsAreNamed();
    StoredMonths(rounds, log, MonthNames(), Index(m));
    CarryforwardIs(rounds, log, Index(m));
    assert Stored(log[0], rounds, MonthNames().name);
    NamesInOrder(Index(m), log[0].index);
  }

  lemma EmptyMonthCloses(b: Books, a: Attempt, p: Program)
    requires a.month !in b.rounds && Valid(a.month) && Valid(Next(a.month))
    requires CarryforwardOf(b.rounds, a.month) == Ok(0)
    requires a.inputs == Inputs([p], [], []) && a.stop > 0 && a.closedAt.month >= Index(Next(a.month))
    requires p.IsValid() && p.calculationVersion == CALCULATION_VERSION && !Before(a.month, p.effectiveFrom)
    ensures CloseOf(b, a).1.Ok?
  {
    EmptyMonthComputes(p, a.month);
    assert [p][..0] == [];
    assert ProgramFor([p], a.month) == Some(p);
  }

  lemma {:induction false} EmptyMonthComputes(p: Program, m: Month)
    requires p.IsValid() && p.calculationVersion == CALCULATION_VERSION
    requires Valid(m) && !Before(m, p.effectiveFrom)
    ensures ReceiptsIn([], m) == [] && ApprovedAwards([]) == []
    ensures ComputeRoundOf(p, m, [], [], 0).Ok? && ComputeRoundOf(p, m, [], [], 0).value.1 == []
  {
    AllocationListsCredits(0, map[], AllocationOf(0, map[]).value);
  }
}
