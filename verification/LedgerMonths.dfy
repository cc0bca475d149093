/** The obligations of one month, in runs that go on with other months between its attempts
    (contributor/ledger.go). */
module LedgerMonths {
  import opened Closing
  import opened CreateOnly
  import opened Engine
  import opened LedgerRetries
  import opened LedgerRuns
  import opened Lex
  import opened Months
  import opened Obligations
  import opened Policy
  import opened Sums

  // The obligation that a closing stamped, whenever that was.
  ghost predicate Keeps(stored: Obligation, o: Obligation) {
    stored.history != [] && stored == Stamped(o, stored.history[0].at)
  }

  // The obligation stored for an account of month m is one of os.
  ghost predicate Holds(b: Books, m: Month, os: seq<Obligation>, account: string) {
    ObligationID(m, account) in b.obligations ==>
      exists i :: 0 <= i < |os| && os[i].account == account
                  && Keeps(b.obligations[ObligationID(m, account)], os[i])
  }

  // Every stored obligation of month m is one of os, ...
  ghost predicate HoldsOnly(b: Books, m: Month, os: seq<Obligation>) {
    forall account :: Holds(b, m, os, account)
  }

  // ... and every one of os is stored.
  ghost predicate HoldsExactly(b: Books, m: Month, os: seq<Obligation>) {
    HoldsOnly(b, m, os) && forall i | 0 <= i < |os| :: ObligationID(m, os[i].account) in b.obligations
  }

  // ----- what one attempt does to a month

  function Least(a: nat, b: nat): nat {
    if a < b then a else b
  }

  lemma CloseObligations(b: Books, a: Attempt, os: seq<Obligation>)
    requires PreparedOf(b.rounds, a).Ok? && os == PreparedOf(b.rounds, a).value.1
    ensures CloseOf(b, a).0.obligations == CreateFirst(b.obligations, os, Least(a.stop, |os|), a.closedAt)
    ensures CloseOf(b, a).1.Ok? ==> a.stop > |os|
  {
  }

  lemma CloseCreates(b: Books, a: Attempt, os: seq<Obligation>)
    requires Computes(b.rounds, a, os)
    ensures DistinctIDs(os)
    ensures Adds(b.obligations, CloseOf(b, a).0.obligations, IDs(os),
                 FirstValues(StampedAll(os, a.closedAt), Least(a.stop, |os|)))
    ensures CloseOf(b, a).1.Ok? ==> a.stop > |os|
  {
    PreparedObligations(b.rounds, a);
    CloseObligations(b, a, os);
    AddFirstAdds(b.obligations, IDs(os), StampedAll(os, a.closedAt), Least(a.stop, |os|));
  }

  lemma AccountIndex(os: seq<Obligation>, m: Month, account: string)
    requires Valid(m) && Creatable(os, m) && ObligationID(m, account) in IDs(os)
    ensures exists i :: 0 <= i < |os| && os[i].account == account && IDs(os)[i] == ObligationID(m, account)
  {
    var i :| 0 <= i < |os| && IDs(os)[i] == ObligationID(m, account);
    ObligationIDInjective(m, os[i].account, m, account);
  }

  // An attempt stores no obligation of another month, and changes none that is stored.
  lemma OtherMonthsStay(b: Books, a: Attempt, m: Month, account: string)
    requires Valid(m)
    ensures ObligationID(m, account) in b.obligations ==>
              ObligationID(m, account) in CloseOf(b, a).0.obligations
              && CloseOf(b, a).0.obligations[ObligationID(m, account)] == b.obligations[ObligationID(m, account)]
    ensures a.month != m && ObligationID(m, account) in CloseOf(b, a).0.obligations ==>
              ObligationID(m, account) in b.obligations
  {
    if PreparedOf(b.rounds, a).Ok? {
      var os := PreparedOf(b.rounds, a).value.1;
      CloseCreates(b, a, os);
      PreparedObligations(b.rounds, a);
      if a.month != m && ObligationID(m, account) in IDs(os) {
        var i :| 0 <= i < |os| && IDs(os)[i] == ObligationID(m, account);
        ObligationIDInjective(a.month, os[i].account, m, account);
      }
    }
  }

  // An attempt on m adds only obligations that it computes.
  lemma CloseHolds(b: Books, a: Attempt, account: string)
    requires PreparedOf(b.rounds, a).Ok? && Holds(b, a.month, PreparedOf(b.rounds, a).value.1, account)
    ensures Holds(CloseOf(b, a).0, a.month, PreparedOf(b.rounds, a).value.1, account)
  {
    var (id, os, after) := (ObligationID(a.month, account), PreparedOf(b.rounds, a).value.1,
                            CloseOf(b, a).0.obligations);
    CloseCreates(b, a, os);
    PreparedObligations(b.rounds, a);
    if id in after && id !in b.obligations {
      AccountIndex(os, a.month, account);
      var i :| 0 <= i < |os| && os[i].account == account && IDs(os)[i] == id;
      assert HasValue(after, IDs(os)[i], FirstValues(StampedAll(os, a.closedAt), Least(a.stop, |os|))(i));
      assert Keeps(after[id], os[i]);
    }
  }

  // When a month is closed, its obligations are exactly those of its round if and only if all of
  // them that were there before are.
  lemma ClosingSettlesIff(b: Books, a: Attempt)
    requires CloseOf(b, a).1.Ok?
    ensures PreparedOf(b.rounds, a).Ok?
    ensures HoldsExactly(CloseOf(b, a).0, a.month, PreparedOf(b.rounds, a).value.1) <==>
            HoldsOnly(b, a.month, PreparedOf(b.rounds, a).value.1)
  {
    CloseFacts(b, a);
    PreparedObligations(b.rounds, a);
    var os, after := PreparedOf(b.rounds, a).value.1, CloseOf(b, a).0;
    if HoldsOnly(b, a.month, os) {
      forall account ensures Holds(after, a.month, os, account) {
        CloseHolds(b, a, account);
      }
      CloseStoresAll(b, a);
    }
    if HoldsOnly(after, a.month, os) {
      forall account ensures Holds(b, a.month, os, account) {
        OtherMonthsStay(b, a, a.month, account);
        assert Holds(after, a.month, os, account);
      }
    }
  }

  lemma CloseStoresAll(b: Books, a: Attempt)
    requires CloseOf(b, a).1.Ok? && PreparedOf(b.rounds, a).Ok?
    ensures var os := PreparedOf(b.rounds, a).value.1;
            forall i | 0 <= i < |os| ::
              ObligationID(a.month, os[i].account) in CloseOf(b, a).0.obligations
  {
    var os, after := PreparedOf(b.rounds, a).value.1, CloseOf(b, a).0.obligations;
    CloseCreates(b, a, os);
    PreparedObligations(b.rounds, a);
    MonthIDs(os, a.month);
    forall i | 0 <= i < |os| ensures ObligationID(a.month, os[i].account) in after {
      if IDs(os)[i] !in b.obligations {
        assert HasValue(after, IDs(os)[i], FirstValues(StampedAll(os, a.closedAt), |os|)(i));
      }
    }
  }

  // ----- the carryforward of a month while others are closed

  lemma RoundsOnlyGrow(b: Books, a: Attempt)
    ensures forall k | k in b.rounds :: k in CloseOf(b, a).0.rounds && CloseOf(b, a).0.rounds[k] == b.rounds[k]
    ensures forall k | k in CloseOf(b, a).0.rounds && k !in b.rounds ::
              k == a.month && Valid(k) && CloseOf(b, a).0.rounds[k].month == k
  {
    if CloseOf(b, a).1.Ok? {
      CloseFacts(b, a);
      ClosedRoundFacts(b, a);
    }
  }

  lemma {:induction false} EarlierStays(b: Books, attempts: seq<Attempt>, m: Month)
    requires SomeRoundBefore(b.rounds, m)
    ensures SomeRoundBefore(RunAll(b, attempts).rounds, m)
    decreases |attempts|
  {
    if attempts != [] {
      RoundsOnlyGrow(b, attempts[0]);
      var k :| k in b.rounds && Before(b.rounds[k].month, m);
      assert k in CloseOf(b, attempts[0]).0.rounds;
      EarlierStays(CloseOf(b, attempts[0]).0, attempts[1..], m);
    }
  }

  lemma PrevIsBefore(m: Month)
    requires Valid(m) && Valid(Prev(m))
    ensures Before(Prev(m), m)
  {
    AddIsAddition(m, -1);
    BeforeIsChronological(Prev(m), m);
  }

  // Unless a first earlier month is closed meanwhile, a carryforward once known stays.
  lemma CarryforwardStays(b: Books, a: Attempt, m: Month)
    requires Valid(m) && CarryforwardOf(b.rounds, m).Ok?
    requires SomeRoundBefore(CloseOf(b, a).0.rounds, m) ==> SomeRoundBefore(b.rounds, m)
    ensures CarryforwardOf(CloseOf(b, a).0.rounds, m) == CarryforwardOf(b.rounds, m)
  {
    RoundsOnlyGrow(b, a);
    var after := CloseOf(b, a).0.rounds;
    if Prev(m) in after && Prev(m) !in b.rounds {
      PrevIsBefore(m);
    }
  }

  // ----- whole runs

  // What holds of month m all along: whatever of it is stored is what is computed for it, and
  // all of it once the month is closed.
  ghost predicate MonthInv(b: Books, m: Month, inputs: Inputs) {
    var assembled := AssembleOf(b.rounds, inputs, m);
    && (assembled.Err? ==> m !in b.rounds && Untouched(b, m))
    && (assembled.Ok? ==> HoldsOnly(b, m, assembled.value.1))
    && (assembled.Ok? && m in b.rounds ==>
          HoldsExactly(b, m, assembled.value.1)
          && b.rounds[m] == assembled.value.0.(closedAt := b.rounds[m].closedAt, closedBy := b.rounds[m].closedBy))
  }

  lemma AssembleStays(b: Books, a: Attempt, m: Month, inputs: Inputs)
    requires AssembleOf(b.rounds, inputs, m).Ok?
    requires SomeRoundBefore(CloseOf(b, a).0.rounds, m) ==> SomeRoundBefore(b.rounds, m)
    ensures AssembleOf(CloseOf(b, a).0.rounds, inputs, m) == AssembleOf(b.rounds, inputs, m)
  {
    CarryforwardStays(b, a, m);
  }

  lemma SameHolds(b: Books, b': Books, m: Month, os: seq<Obligation>, account: string)
    requires Holds(b, m, os, account)
    requires ObligationID(m, account) in b'.obligations ==>
               ObligationID(m, account) in b.obligations
               && b'.obligations[ObligationID(m, account)] == b.obligations[ObligationID(m, account)]
    ensures Holds(b', m, os, account)
  {
  }

  lemma OtherStep(b: Books, a: Attempt, m: Month, inputs: Inputs)
    requires Valid(m) && MonthInv(b, m, inputs)
    requires a.month != m || PreparedOf(b.rounds, a).Err?
    requires SomeRoundBefore(CloseOf(b, a).0.rounds, m) ==> SomeRoundBefore(b.rounds, m)
    ensures MonthInv(CloseOf(b, a).0, m, inputs)
  {
    var after := CloseOf(b, a).0;
    RoundsOnlyGrow(b, a);
    forall account ensures ObligationID(m, account) in after.obligations ==>
                             ObligationID(m, account) in b.obligations
                             && after.obligations[ObligationID(m, account)] == b.obligations[ObligationID(m, account)]
    {
      OtherMonthsStay(b, a, m, account);
    }
    if AssembleOf(b.rounds, inputs, m).Ok? {
      var os := AssembleOf(b.rounds, inputs, m).value.1;
      AssembleStays(b, a, m, inputs);
      forall account ensures Holds(after, m, os, account) {
        assert Holds(b, m, os, account);
        SameHolds(b, after, m, os, account);
      }
      forall i | 0 <= i < |os| && ObligationID(m, os[i].account) in b.obligations
        ensures ObligationID(m, os[i].account) in after.obligations
      {
        OtherMonthsStay(b, a, m, os[i].account);
      }
    } else {
      assert Untouched(after, m);
    }
  }

  lemma OwnStep(b: Books, a: Attempt, last: Attempt)
    requires MonthInv(b, last.month, last.inputs) && Frozen(a, last) && PreparedOf(b.rounds, a).Ok?
    requires SomeRoundBefore(CloseOf(b, a).0.rounds, a.month) ==> SomeRoundBefore(b.rounds, a.month)
    ensures MonthInv(CloseOf(b, a).0, last.month, last.inputs)
  {
    var os := PreparedOf(b.rounds, a).value.1;
    FrozenAssemble(b.rounds, a, last);
    AssembleStays(b, a, a.month, last.inputs);
    forall account ensures Holds(CloseOf(b, a).0, a.month, os, account) {
      assert Holds(b, a.month, os, account);
      CloseHolds(b, a, account);
    }
    if CloseOf(b, a).1.Ok? {
      CloseFacts(b, a);
      CloseStoresAll(b, a);
    } else {
      FailureKeepsRounds(b, a);
      PreparedFacts(b.rounds, a);
    }
  }

  // No earlier month is the first to be closed in the course of the run.
  ghost predicate NotOvertaken(b: Books, attempts: seq<Attempt>, m: Month) {
    SomeRoundBefore(RunAll(b, attempts).rounds, m) ==> SomeRoundBefore(b.rounds, m)
  }

  lemma {:induction false} RunKeepsMonth(b: Books, attempts: seq<Attempt>, last: Attempt)
    requires Valid(last.month) && MonthInv(b, last.month, last.inputs)
    requires NotOvertaken(b, attempts, last.month)
    requires forall a | a in attempts && a.month == last.month :: Frozen(a, last)
    ensures MonthInv(RunAll(b, attempts), last.month, last.inputs)
    decreases |attempts|
  {
    if attempts != [] {
      var (a, rest, m) := (attempts[0], attempts[1..], last.month);
      var next := CloseOf(b, a).0;
      assert RunAll(b, attempts) == RunAll(next, rest);
      if SomeRoundBefore(next.rounds, m) {
        EarlierStays(next, rest, m);
      }
      if a.month == m && PreparedOf(b.rounds, a).Ok? {
        OwnStep(b, a, last);
      } else {
        OtherStep(b, a, m, last.inputs);
      }
      if SomeRoundBefore(b.rounds, m) {
        EarlierStays(b, [a], m);
        assert RunAll(b, [a]) == RunAll(next, []) == next;
      }
      RunKeepsMonth(next, rest, last);
    }
  }

  ghost function StoredFor(b: Books, m: Month, os: seq<Obligation>): seq<Obligation>
    requires forall i | 0 <= i < |os| :: ObligationID(m, os[i].account) in b.obligations
  {
    seq(|os|, i requires 0 <= i < |os| => b.obligations[ObligationID(m, os[i].account)])
  }

  lemma {:induction false} StoredAmounts(b: Books, m: Month, os: seq<Obligation>)
    requires AscendingAccounts(os) && HoldsExactly(b, m, os)
    ensures SumBy(StoredFor(b, m, os), Owing()) == SumBy(os, Owing())
  {
    forall i | 0 <= i < |os| ensures StoredFor(b, m, os)[i].amountCents == os[i].amountCents {
      assert Holds(b, m, os, os[i].account);
      var j :| 0 <= j < |os| && os[j].account == os[i].account
               && Keeps(b.obligations[ObligationID(m, os[i].account)], os[j]);
      LessTrichotomy(os[i].account, os[j].account);
      assert i == j;
    }
    SameAmounts(StoredFor(b, m, os), os);
  }

  // The stored obligations of a closed month are exactly one for each positive entitlement of its
  // round, and add up to what it allocates.
  ghost predicate Settled(b: Books, m: Month, p: Program, os: seq<Obligation>)
    requires Valid(m) && m in b.rounds
  {
    && HoldsExactly(b, m, os) && OnePerEntitlement(os, b.rounds[m], p, m)
    && SumBy(StoredFor(b, m, os), Owing()) == b.rounds[m].AllocatedCents()
  }

  // Over any run, with whatever attempts on other months in between, a month whose own inputs
  // are frozen and that no earlier month overtakes has, once it is closed, exactly the
  // obligations of its round.
  lemma {:induction false} ClosedMonthsSettle(b: Books, attempts: seq<Attempt>, last: Attempt)
    requires Valid(last.month) && last.month !in b.rounds && Untouched(b, last.month)
    requires NotOvertaken(b, attempts, last.month)
    requires forall a | a in attempts && a.month == last.month :: Frozen(a, last)
    requires last.month in RunAll(b, attempts).rounds
    ensures AssembleOf(RunAll(b, attempts).rounds, last.inputs, last.month).Ok?
    ensures ProgramFor(last.inputs.programs, last.month).Some?
    ensures Settled(RunAll(b, attempts), last.month, ProgramFor(last.inputs.programs, last.month).value,
                    AssembleOf(RunAll(b, attempts).rounds, last.inputs, last.month).value.1)
  {
    var end := RunAll(b, attempts);
    RunKeepsMonth(b, attempts, last);
    AssembledAreCreatable(end.rounds, last.inputs, last.month);
    StoredAmounts(end, last.month, AssembleOf(end.rounds, last.inputs, last.month).value.1);
  }
}
