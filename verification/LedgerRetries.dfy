/** Retrying a closing that stopped half-way (contributor/ledger.go, CloseRound): obligations are
    created before the round, so that a failed attempt leaves nothing a later one must undo. */
module LedgerRetries {
  import opened Closing
  import opened CreateOnly
  import opened Engine
  import opened Lex
  import opened LedgerRuns
  import opened Months
  import opened Obligations
  import opened Results
  import opened Sums

  // Both attempts read the same program, receipts and awards for the same month, in any order.
  ghost predicate Frozen(a: Attempt, b: Attempt) {
    && a.month == b.month
    && ProgramFor(a.inputs.programs, a.month) == ProgramFor(b.inputs.programs, a.month)
    && SameInputs(ReceiptsIn(a.inputs.receipts, a.month), ApprovedAwards(a.inputs.awards),
                  ReceiptsIn(b.inputs.receipts, a.month), ApprovedAwards(b.inputs.awards))
  }

  lemma FrozenAssemble(rounds: map<Month, Round>, a: Attempt, b: Attempt)
    requires Frozen(a, b)
    ensures AssembleOf(rounds, a.inputs, a.month).Ok? <==> AssembleOf(rounds, b.inputs, a.month).Ok?
    ensures AssembleOf(rounds, a.inputs, a.month).Ok? ==>
              AssembleOf(rounds, a.inputs, a.month) == AssembleOf(rounds, b.inputs, a.month)
  {
    var program := ProgramFor(a.inputs.programs, a.month);
    if Valid(a.month) && program.Some? && CarryforwardOf(rounds, a.month).Ok? {
      ComputeRoundPermutation(
        program.value, a.month,
        ReceiptsIn(a.inputs.receipts, a.month), ApprovedAwards(a.inputs.awards),
        ReceiptsIn(b.inputs.receipts, a.month), ApprovedAwards(b.inputs.awards),
        CarryforwardOf(rounds, a.month).value);
    }
  }

  // ----- what creating obligations leaves behind

  // The attempt is made after its month, and gets past its first i store writes.
  predicate Reaches(a: Attempt, i: nat) {
    Valid(a.month) && a.closedAt.month > Index(a.month) && a.stop > i
  }

  // The closing time of the first attempt that creates obligation i.
  function FirstToReach(attempts: seq<Attempt>, i: nat): Option<Instant> {
    if attempts == [] then None
    else if Reaches(attempts[0], i) then Some(attempts[0].closedAt)
    else FirstToReach(attempts[1..], i)
  }

  // What the attempts create: obligation i, as the first attempt that reaches it stamps it.
  ghost function CreatedBy(os: seq<Obligation>, attempts: seq<Attempt>): nat -> Option<Obligation> {
    (i: nat) =>
      if i < |os| && FirstToReach(attempts, i).Some?
      then Some(Stamped(os[i], FirstToReach(attempts, i).value)) else None
  }

  // Obligations that differ in account, so in id.
  ghost predicate DistinctIDs(os: seq<Obligation>) {
    forall i, j | 0 <= i < j < |os| :: IDs(os)[i] != IDs(os)[j]
  }

  lemma PreparedObligations(rounds: map<Month, Round>, a: Attempt)
    requires PreparedOf(rounds, a).Ok?
    ensures Valid(a.month) && ProgramFor(a.inputs.programs, a.month).Some?
    ensures var (round, os) := PreparedOf(rounds, a).value;
            && OnePerEntitlement(os, round, ProgramFor(a.inputs.programs, a.month).value, a.month)
            && DistinctIDs(os)
  {
    PreparedFacts(rounds, a);
    AssembledAreCreatable(rounds, a.inputs, a.month);
    MonthIDs(PreparedOf(rounds, a).value.1, a.month);
  }

  // The ids of one month's obligations differ, and are those of its accounts.
  lemma MonthIDs(os: seq<Obligation>, m: Month)
    requires Valid(m) && Creatable(os, m) && AscendingAccounts(os)
    ensures forall i | 0 <= i < |os| :: IDs(os)[i] == ObligationID(m, os[i].account)
    ensures DistinctIDs(os)
  {
    forall i, j | 0 <= i < j < |os| ensures IDs(os)[i] != IDs(os)[j] {
      LessTrichotomy(os[i].account, os[j].account);
      if IDs(os)[i] == IDs(os)[j] {
        ObligationIDInjective(m, os[i].account, m, os[j].account);
      }
    }
  }

  // An attempt on frozen inputs is prepared exactly when its month has ended.
  lemma PreparedIffEnded(rounds: map<Month, Round>, a: Attempt, last: Attempt)
    requires Frozen(a, last) && PreparedOf(rounds, last).Ok?
    ensures Valid(a.month)
    ensures PreparedOf(rounds, a)
              == if a.closedAt.month > Index(a.month) then PreparedOf(rounds, last) else Err(NotEnded)
  {
    FrozenAssemble(rounds, a, last);
    PreparedFacts(rounds, last);
    AddIsAddition(a.month, 1);
  }

  // ----- whole retries

  // Failed attempts, one after another.
  ghost predicate AllFail(b: Books, attempts: seq<Attempt>)
    decreases |attempts|
  {
    attempts != [] ==> CloseOf(b, attempts[0]).1.Err? && AllFail(CloseOf(b, attempts[0]).0, attempts[1..])
  }

  // The obligations of a month, as they are computed whenever an attempt on it is prepared.
  ghost predicate Computes(rounds: map<Month, Round>, last: Attempt, os: seq<Obligation>) {
    PreparedOf(rounds, last).Ok? && PreparedOf(rounds, last).value.1 == os
  }

  lemma FailedAttemptAdds(b: Books, a: Attempt, last: Attempt, os: seq<Obligation>)
    requires Frozen(a, last) && Computes(b.rounds, last, os) && CloseOf(b, a).1.Err?
    ensures CloseOf(b, a).0.rounds == b.rounds
    ensures Adds(b.obligations, CloseOf(b, a).0.obligations, IDs(os), CreatedBy(os, [a]))
  {
    PreparedIffEnded(b.rounds, a, last);
    PreparedObligations(b.rounds, last);
    if PreparedOf(b.rounds, a).Ok? {
      CreateFirstAdds(b.obligations, os, a.stop, a);
    } else {
      CreateFirstAdds(b.obligations, os, 0, a);
    }
  }

  lemma CreateFirstAdds(stored: map<string, Obligation>, os: seq<Obligation>, k: nat, a: Attempt)
    requires k <= |os| && DistinctIDs(os)
    requires forall i: nat | i < |os| :: i < k <==> Reaches(a, i)
    ensures Adds(stored, CreateFirst(stored, os, k, a.closedAt), IDs(os), CreatedBy(os, [a]))
  {
    var after := CreateFirst(stored, os, k, a.closedAt);
    AddFirstAdds(stored, IDs(os), StampedAll(os, a.closedAt), k);
    forall i: nat | i < |os|
      ensures CreatedBy(os, [a])(i) == FirstValues(StampedAll(os, a.closedAt), k)(i)
    {
      assert FirstToReach([a], i) == if Reaches(a, i) then Some(a.closedAt) else None;
    }
    SameAdds(stored, after, IDs(os), FirstValues(StampedAll(os, a.closedAt), k), CreatedBy(os, [a]));
  }

  lemma SameAdds(st: map<string, Obligation>, st': map<string, Obligation>, ids: seq<string>,
                 value: nat -> Option<Obligation>, value': nat -> Option<Obligation>)
    requires Adds(st, st', ids, value) && forall i: nat | i < |ids| :: value(i) == value'(i)
    ensures Adds(st, st', ids, value')
  {
  }

  lemma CreatedByMore(os: seq<Obligation>, attempts: seq<Attempt>, i: nat)
    requires attempts != []
    ensures CreatedBy(os, attempts)(i)
              == if CreatedBy(os, [attempts[0]])(i).Some? then CreatedBy(os, [attempts[0]])(i)
                 else CreatedBy(os, attempts[1..])(i)
  {
    assert FirstToReach([attempts[0]], i)
        == if Reaches(attempts[0], i) then Some(attempts[0].closedAt) else None;
  }

  // Failed attempts leave the rounds and the older entries untouched, and each obligation as the
  // first attempt to reach it stamped it.
  lemma {:induction false} FailuresKeepLeftovers(
    b: Books, attempts: seq<Attempt>, last: Attempt, os: seq<Obligation>)
    requires AllFail(b, attempts) && Computes(b.rounds, last, os)
    requires forall i | 0 <= i < |attempts| :: Frozen(attempts[i], last)
    ensures RunAll(b, attempts).rounds == b.rounds
    ensures Adds(b.obligations, RunAll(b, attempts).obligations, IDs(os), CreatedBy(os, attempts))
    decreases |attempts|
  {
    if attempts != [] {
      var next := CloseOf(b, attempts[0]).0;
      FailedAttemptAdds(b, attempts[0], last, os);
      FailuresKeepLeftovers(next, attempts[1..], last, os);
      forall i: nat {
        CreatedByMore(os, attempts, i);
      }
      AddsTwice(b.obligations, next.obligations, RunAll(b, attempts).obligations, IDs(os),
                CreatedBy(os, [attempts[0]]), CreatedBy(os, attempts[1..]), CreatedBy(os, attempts));
    }
  }

  // However many attempts fail, and wherever, no round is stored.
  lemma {:induction false} FailuresStoreNoRound(b: Books, attempts: seq<Attempt>)
    requires AllFail(b, attempts)
    ensures RunAll(b, attempts).rounds == b.rounds
    decreases |attempts|
  {
    if attempts != [] {
      FailureKeepsRounds(b, attempts[0]);
      FailuresStoreNoRound(CloseOf(b, attempts[0]).0, attempts[1..]);
    }
  }

  // No obligation of month m is stored.
  ghost predicate Untouched(b: Books, m: Month) {
    forall account :: ObligationID(m, account) !in b.obligations
  }

  // When obligation i was created, if all the attempts fail but the last.
  function CreatedAt(failed: seq<Attempt>, last: Attempt, i: nat): Instant {
    if FirstToReach(failed, i).Some? then FirstToReach(failed, i).value else last.closedAt
  }

  // The store holds each obligation once, stamped by the first attempt to reach it, and nothing
  // else is new.
  ghost predicate Settles(b0: Books, b: Books, os: seq<Obligation>, failed: seq<Attempt>, last: Attempt) {
    && (forall id | id in b0.obligations :: id in b.obligations && b.obligations[id] == b0.obligations[id])
    && (forall id :: id in b.obligations && id !in b0.obligations <==> id in IDs(os))
    && (forall i | 0 <= i < |os| ::
          IDs(os)[i] in b.obligations
          && b.obligations[IDs(os)[i]] == Stamped(os[i], CreatedAt(failed, last, i)))
  }

  lemma SuccessSettles(b0: Books, before: Books, os: seq<Obligation>, failed: seq<Attempt>, last: Attempt)
    requires Computes(before.rounds, last, os) && CloseOf(before, last).1.Ok?
    requires Untouched(b0, last.month)
    requires Adds(b0.obligations, before.obligations, IDs(os), CreatedBy(os, failed))
    ensures Settles(b0, CloseOf(before, last).0, os, failed, last)
  {
    PreparedObligations(before.rounds, last);
    MonthIDs(os, last.month);
    var after := CloseOf(before, last).0.obligations;
    assert after == CreateFirst(before.obligations, os, |os|, last.closedAt);
    AddFirstAdds(before.obligations, IDs(os), StampedAll(os, last.closedAt), |os|);
    forall i | 0 <= i < |os|
      ensures IDs(os)[i] !in b0.obligations && IDs(os)[i] in after
              && after[IDs(os)[i]] == Stamped(os[i], CreatedAt(failed, last, i))
    {
      assert HasValue(before.obligations, IDs(os)[i], CreatedBy(os, failed)(i));
      if IDs(os)[i] !in before.obligations {
        assert HasValue(after, IDs(os)[i], FirstValues(StampedAll(os, last.closedAt), |os|)(i));
      }
    }
  }

  // The obligations that a closing leaves in the store.
  ghost function StoredOf(b: Books, os: seq<Obligation>): seq<Obligation>
    requires forall i | 0 <= i < |os| :: IDs(os)[i] in b.obligations
  {
    seq(|os|, i requires 0 <= i < |os| => b.obligations[IDs(os)[i]])
  }

  lemma {:induction false} SameAmounts(kept: seq<Obligation>, os: seq<Obligation>)
    requires |kept| == |os| && forall i | 0 <= i < |os| :: kept[i].amountCents == os[i].amountCents
    ensures SumBy(kept, Owing()) == SumBy(os, Owing())
  {
    if os != [] {
      SameAmounts(kept[..|os| - 1], os[..|os| - 1]);
    }
  }

  // The round is stored, and the new obligations are one for each positive entitlement, freshly
  // earned, that add up to what it allocates.
  ghost predicate Converged(b0: Books, b: Books, failed: seq<Attempt>, last: Attempt, round: Round)
    requires PreparedOf(b0.rounds, last).Ok? && Valid(last.month)
    requires ProgramFor(last.inputs.programs, last.month).Some?
  {
    var os := PreparedOf(b0.rounds, last).value.1;
    && b.rounds == b0.rounds[last.month := round]
    && Settles(b0, b, os, failed, last)
    && OnePerEntitlement(os, round, ProgramFor(last.inputs.programs, last.month).value, last.month)
    && SumBy(StoredOf(b, os), Owing()) == round.AllocatedCents()
  }

  // With the inputs frozen, any number of attempts may fail at any point: none leaves a round,
  // and the first success stores the round and leaves exactly one obligation, freshly earned,
  // for each positive entitlement; they add up to what the round allocates. Each records, in
  // its one event, the closing time of the first attempt that got as far as creating it. Every
  // other obligation is as it was.
  lemma {:induction false} RetriesConverge(b0: Books, failed: seq<Attempt>, last: Attempt)
    requires Untouched(b0, last.month) && AllFail(b0, failed)
    requires forall i | 0 <= i < |failed| :: Frozen(failed[i], last)
    requires CloseOf(RunAll(b0, failed), last).1.Ok?
    ensures RunAll(b0, failed).rounds == b0.rounds
    ensures PreparedOf(b0.rounds, last).Ok? && Valid(last.month)
    ensures ProgramFor(last.inputs.programs, last.month).Some?
    ensures Converged(b0, CloseOf(RunAll(b0, failed), last).0, failed, last,
                      CloseOf(RunAll(b0, failed), last).1.value)
  {
    var before := RunAll(b0, failed);
    FailuresStoreNoRound(b0, failed);
    CloseFacts(before, last);
    var os := PreparedOf(b0.rounds, last).value.1;
    FailuresKeepLeftovers(b0, failed, last, os);
    SuccessConverges(b0, before, os, failed, last);
  }

  lemma SuccessConverges(
    b0: Books, before: Books, os: seq<Obligation>, failed: seq<Attempt>, last: Attempt)
    requires before.rounds == b0.rounds && Computes(b0.rounds, last, os)
    requires CloseOf(before, last).1.Ok? && Untouched(b0, last.month)
    requires Adds(b0.obligations, before.obligations, IDs(os), CreatedBy(os, failed))
    ensures Valid(last.month) && ProgramFor(last.inputs.programs, last.month).Some?
    ensures Converged(b0, CloseOf(before, last).0, failed, last, CloseOf(before, last).1.value)
  {
    CloseFacts(before, last);
    PreparedObligations(b0.rounds, last);
    SuccessSettles(b0, before, os, failed, last);
    SameAmounts(StoredOf(CloseOf(before, last).0, os), os);
  }

  lemma {:induction false} FirstToReachIs(attempts: seq<Attempt>, i: nat, t: Instant)
    ensures FirstToReach(attempts, i) == Some(t) <==>
            exists j :: 0 <= j < |attempts| && IsFirst(attempts, i, j) && attempts[j].closedAt == t
    ensures FirstToReach(attempts, i).None? <==> forall a | a in attempts :: !Reaches(a, i)
  {
    if attempts != [] {
      var rest := attempts[1..];
      FirstToReachIs(rest, i, t);
      assert attempts == [attempts[0]] + rest;
      if j :| 0 <= j < |rest| && IsFirst(rest, i, j) && rest[j].closedAt == t {
        assert !Reaches(attempts[0], i) ==> IsFirst(attempts, i, j + 1);
      }
      if j :| 0 <= j < |attempts| && IsFirst(attempts, i, j) && attempts[j].closedAt == t {
        assert j > 0 ==> IsFirst(rest, i, j - 1);
      }
      assert Reaches(attempts[0], i) ==> IsFirst(attempts, i, 0);
    }
  }

  ghost predicate IsFirst(attempts: seq<Attempt>, i: nat, j: nat)
    requires j < |attempts|
  {
    Reaches(attempts[j], i) && forall k | 0 <= k < j :: !Reaches(attempts[k], i)
  }

  // An obligation kept from an earlier attempt is the one just computed, event and all, exactly
  // when no earlier attempt reached it or the first that did had the same closing time.
  lemma {:induction false} LeftoverIsIdenticalIff(b0: Books, failed: seq<Attempt>, last: Attempt, i: nat)
    requires Untouched(b0, last.month) && AllFail(b0, failed)
    requires forall j | 0 <= j < |failed| :: Frozen(failed[j], last)
    requires CloseOf(RunAll(b0, failed), last).1.Ok?
    requires PreparedOf(b0.rounds, last).Ok? && i < |PreparedOf(b0.rounds, last).value.1|
    ensures var (os, b) := (PreparedOf(b0.rounds, last).value.1, CloseOf(RunAll(b0, failed), last).0);
            && IDs(os)[i] in b.obligations
            && (b.obligations[IDs(os)[i]] == Stamped(os[i], last.closedAt) <==>
                FirstToReach(failed, i).None? || FirstToReach(failed, i) == Some(last.closedAt))
  {
    RetriesConverge(b0, failed, last);
  }

  // A closing that could have succeeded at first still succeeds after any failed attempts, as
  // soon as one runs to its end.
  lemma {:induction false} RetryCanFinish(b0: Books, failed: seq<Attempt>, last: Attempt)
    requires AllFail(b0, failed) && PreparedOf(b0.rounds, last).Ok?
    requires last.stop > |PreparedOf(b0.rounds, last).value.1|
    ensures CloseOf(RunAll(b0, failed), last).1.Ok?
  {
    FailuresStoreNoRound(b0, failed);
  }
}
