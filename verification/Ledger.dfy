/** Adding entries to a store that keeps the entry there is: document.Service.Create, when its
    ErrAlreadyExists is passed over. */
module CreateOnly {
  import opened Results

  // Adds the first k entries.
  function AddFirst<V>(st: map<string, V>, ids: seq<string>, vs: seq<V>, k: nat): map<string, V>
    requires k <= |ids| == |vs|
  {
    if k == 0 then st
    else
      var before := AddFirst(st, ids, vs, k - 1);
      if ids[k - 1] in before then before else before[ids[k - 1] := vs[k - 1]]
  }

  // After st, st' also has value(i), if there is one, for each new ids[i], and nothing else.
  ghost predicate Adds<V>(
    st: map<string, V>, st': map<string, V>, ids: seq<string>, value: nat -> Option<V>)
  {
    && (forall id | id in st :: id in st' && st'[id] == st[id])
    && (forall id | id in st' && id !in st :: id in ids)
    && (forall i | 0 <= i < |ids| && ids[i] !in st :: HasValue(st', ids[i], value(i)))
  }

  ghost predicate HasValue<V>(st: map<string, V>, id: string, value: Option<V>) {
    if value.None? then id !in st else id in st && st[id] == value.value
  }

  function FirstValues<V>(vs: seq<V>, k: nat): nat -> Option<V> {
    (i: nat) => if i < k && i < |vs| then Some(vs[i]) else None
  }

  lemma {:induction false} AddFirstKeeps<V>(st: map<string, V>, ids: seq<string>, vs: seq<V>, k: nat, id: string)
    requires k <= |ids| == |vs|
    ensures id in st ==> id in AddFirst(st, ids, vs, k) && AddFirst(st, ids, vs, k)[id] == st[id]
    ensures id !in st ==> (id in AddFirst(st, ids, vs, k) <==> id in ids[..k])
  {
    if k > 0 {
      AddFirstKeeps(st, ids, vs, k - 1, id);
      assert ids[..k] == ids[..k - 1] + [ids[k - 1]];
    }
  }

  lemma {:induction false} AddFirstValue<V>(st: map<string, V>, ids: seq<string>, vs: seq<V>, k: nat, i: nat)
    requires i < k <= |ids| == |vs| && ids[i] !in st
    requires forall j | 0 <= j < |ids| && j != i :: ids[j] != ids[i]
    ensures ids[i] in AddFirst(st, ids, vs, k) && AddFirst(st, ids, vs, k)[ids[i]] == vs[i]
  {
    if i == k - 1 {
      AddFirstKeeps(st, ids, vs, k - 1, ids[i]);
    } else {
      AddFirstValue(st, ids, vs, k - 1, i);
    }
  }

  lemma {:induction false} AddFirstAdds<V>(st: map<string, V>, ids: seq<string>, vs: seq<V>, k: nat)
    requires k <= |ids| == |vs|
    requires forall i, j | 0 <= i < j < |ids| :: ids[i] != ids[j]
    ensures Adds(st, AddFirst(st, ids, vs, k), ids, FirstValues(vs, k))
  {
    var after := AddFirst(st, ids, vs, k);
    forall id ensures id in st ==> id in after && after[id] == st[id]
              ensures id !in st && id in after ==> id in ids
    {
      AddFirstKeeps(st, ids, vs, k, id);
    }
    forall i | 0 <= i < |ids| && ids[i] !in st ensures HasValue(after, ids[i], FirstValues(vs, k)(i)) {
      AddFirstKeeps(st, ids, vs, k, ids[i]);
      if i < k {
        AddFirstValue(st, ids, vs, k, i);
      } else {
        assert forall j | 0 <= j < k :: ids[..k][j] == ids[j];
      }
    }
  }

  // What is added first stays: a later value only fills a gap.
  lemma AddsTwice<V>(
    st: map<string, V>, st1: map<string, V>, st2: map<string, V>, ids: seq<string>,
    first: nat -> Option<V>, second: nat -> Option<V>, both: nat -> Option<V>)
    requires Adds(st, st1, ids, first) && Adds(st1, st2, ids, second)
    requires forall i: nat | i < |ids| :: both(i) == if first(i).Some? then first(i) else second(i)
    ensures Adds(st, st2, ids, both)
  {
    forall i | 0 <= i < |ids| && ids[i] !in st ensures HasValue(st2, ids[i], both(i)) {
      assert HasValue(st1, ids[i], first(i));
    }
  }
}

/** contributor/ledger.go: closing months over the stores of document_store.go.

    An attempt to close a month carries what it read (programs, receipts and awards, in some
    listing order) and the number of store writes after which it stops: `stop` stands for a crash
    or a store failure at any write. The rounds and obligations are the state. */
module Closing {
  import opened Allocation
  import opened CreateOnly
  import opened Engine
  import opened Lex
  import opened Months
  import opened Obligations
  import opened Policy
  import opened Results
  import opened Sorting
  import opened Sums

  datatype Books = Books(rounds: map<Month, Round>, obligations: map<string, Obligation>)

  datatype Inputs = Inputs(programs: seq<Program>, receipts: seq<Receipt>, awards: seq<Award>)

  datatype Attempt = Attempt(
    month: Month, closedAt: Instant, closedBy: string, inputs: Inputs, stop: nat)

  datatype CloseError =
    | RoundClosed | MonthPanics | BadMonth | NotEnded | NoProgram | Gap | NotComputable(e: EngineError) | Stopped

  // The effective program with the latest EffectiveFrom, the first listed among equals.
  function ProgramFor(programs: seq<Program>, m: Month): Option<Program> {
    if programs == [] then None
    else
      var p, best := programs[|programs| - 1], ProgramFor(programs[..|programs| - 1], m);
      if Before(m, p.effectiveFrom) then best
      else if best.None? || Before(best.value.effectiveFrom, p.effectiveFrom) then Some(p)
      else best
  }

  function ReceiptsIn(receipts: seq<Receipt>, m: Month): seq<Receipt> {
    if receipts == [] then []
    else
      var r := receipts[|receipts| - 1];
      ReceiptsIn(receipts[..|receipts| - 1], m) + if r.month == m then [r] else []
  }

  function ApprovedAwards(awards: seq<Award>): seq<Award> {
    if awards == [] then []
    else
      var a := awards[|awards| - 1];
      ApprovedAwards(awards[..|awards| - 1]) + if a.status == Approved then [a] else []
  }

  // The receipts of the month, all of them and as often as listed, and the approved awards.
  lemma {:induction false} ReceiptsInAre(receipts: seq<Receipt>, m: Month, r: Receipt)
    ensures multiset(ReceiptsIn(receipts, m))[r] == if r.month == m then multiset(receipts)[r] else 0
  {
    if receipts != [] {
      var n := |receipts| - 1;
      ReceiptsInAre(receipts[..n], m, r);
      assert receipts == receipts[..n] + [receipts[n]];
    }
  }

  lemma {:induction false} ApprovedAwardsAre(awards: seq<Award>, a: Award)
    ensures multiset(ApprovedAwards(awards))[a] == if a.status == Approved then multiset(awards)[a] else 0
  {
    if awards != [] {
      var n := |awards| - 1;
      ApprovedAwardsAre(awards[..n], a);
      assert awards == awards[..n] + [awards[n]];
    }
  }

  // What a listed receipt brings in month m.
  function NetIn(m: Month): Receipt -> int {
    (r: Receipt) => if r.month == m then NetOf()(r) else 0
  }

  lemma {:induction false} NetOfMonth(receipts: seq<Receipt>, m: Month)
    ensures SumBy(ReceiptsIn(receipts, m), NetOf()) == SumBy(receipts, NetIn(m))
  {
    if receipts != [] {
      var n := |receipts| - 1;
      NetOfMonth(receipts[..n], m);
      if receipts[n].month == m {
        SumByAppend(ReceiptsIn(receipts[..n], m), receipts[n], NetOf());
      } else {
        assert ReceiptsIn(receipts, m) == ReceiptsIn(receipts[..n], m);
      }
    }
  }

  // What a listed award gives an account in the month with index i, from its activation up to
  // its expiration.
  ghost function EarnedIn(i: int, account: string): Award -> int {
    (a: Award) =>
      if a.status == Approved && Valid(a.activation) && Valid(a.expiration)
         && Index(a.activation) <= i < Index(a.expiration)
      then SumBy(a.splits, SplitTo(account)) else 0
  }

  lemma ContributionIsEarned(a: Award, m: Month, account: string)
    requires Valid(m) && (a.status == Approved ==> a.IsValid())
    ensures Contribution(m, account)(a) == EarnedIn(Index(m), account)(a)
  {
    if a.status == Approved {
      BeforeIsChronological(m, a.activation);
      BeforeIsChronological(m, a.expiration);
    }
  }

  lemma {:induction false} CreditsOfMonth(awards: seq<Award>, m: Month, account: string)
    requires Valid(m) && AwardsValid(ApprovedAwards(awards))
    ensures CreditsOf(CreditsFrom(ApprovedAwards(awards), m))(account)
              == SumBy(awards, EarnedIn(Index(m), account))
  {
    CreditsAreContributions(ApprovedAwards(awards), m, account);
    ContributionsAreEarned(awards, m, account);
  }

  lemma {:induction false} ContributionsAreEarned(awards: seq<Award>, m: Month, account: string)
    requires Valid(m) && AwardsValid(ApprovedAwards(awards))
    ensures SumBy(ApprovedAwards(awards), Contribution(m, account))
              == SumBy(awards, EarnedIn(Index(m), account))
  {
    if awards != [] {
      var n := |awards| - 1;
      var before, a := ApprovedAwards(awards[..n]), awards[n];
      if a.status == Approved {
        assert ApprovedAwards(awards) == before + [a];
        assert ApprovedAwards(awards)[|before|] == a;
        assert forall k | 0 <= k < |before| :: before[k] == ApprovedAwards(awards)[k];
        SumByAppend(before, a, Contribution(m, account));
      } else {
        assert ApprovedAwards(awards) == before;
      }
      ContributionsAreEarned(awards[..n], m, account);
      ContributionIsEarned(a, m, account);
    }
  }

  ghost predicate SomeRoundBefore(rounds: map<Month, Round>, m: Month) {
    exists k | k in rounds :: Before(rounds[k].month, m)
  }

  ghost function CarryforwardOf(rounds: map<Month, Round>, m: Month): Result<int, CloseError>
    requires Valid(m)
  {
    if Prev(m) in rounds then Ok(rounds[Prev(m)].unallocatedCents)
    else if SomeRoundBefore(rounds, m) then Err(Gap)
    else Ok(0)
  }

  // Ledger.assemble
  ghost function AssembleOf(rounds: map<Month, Round>, inputs: Inputs, m: Month)
    : Result<(Round, seq<Obligation>), CloseError>
  {
    if !Valid(m) then Err(BadMonth)
    else
      match ProgramFor(inputs.programs, m)
      case None => Err(NoProgram)
      case Some(p) =>
        match CarryforwardOf(rounds, m)
        case Err(e) => Err(e)
        case Ok(carry) =>
          match ComputeRoundOf(p, m, ReceiptsIn(inputs.receipts, m), ApprovedAwards(inputs.awards), carry)
          case Err(e) => Err(NotComputable(e))
          case Ok(computed) => Ok(computed)
  }

  // What an attempt computes before it writes anything.
  ghost function PreparedOf(rounds: map<Month, Round>, a: Attempt)
    : Result<(Round, seq<Obligation>), CloseError>
  {
    if a.month in rounds then Err(RoundClosed)
    else if !Valid(a.month) || !Valid(Next(a.month)) then Err(MonthPanics)
    else if BeforeMonth(a.closedAt, Index(Next(a.month))) then Err(NotEnded)
    else AssembleOf(rounds, a.inputs, a.month)
  }

  function Stamped(o: Obligation, closedAt: Instant): Obligation {
    o.(history := [Event(Estimated, Earned, closedAt, "round " + o.month + " closed")])
  }

  function IDs(os: seq<Obligation>): seq<string> {
    seq(|os|, i requires 0 <= i < |os| => os[i].ID())
  }

  function StampedAll(os: seq<Obligation>, closedAt: Instant): seq<Obligation> {
    seq(|os|, i requires 0 <= i < |os| => Stamped(os[i], closedAt))
  }

  // Creates the first k obligations, keeping those that exist.
  function CreateFirst(stored: map<string, Obligation>, os: seq<Obligation>, k: nat, closedAt: Instant)
    : map<string, Obligation>
    requires k <= |os|
  {
    AddFirst(stored, IDs(os), StampedAll(os, closedAt), k)
  }

  // The books after an attempt, and what it returns.
  ghost function CloseOf(b: Books, a: Attempt): (Books, Result<Round, CloseError>) {
    match PreparedOf(b.rounds, a)
    case Err(e) => (b, Err(e))
    case Ok((computed, os)) =>
      if a.stop <= |os| then
        (b.(obligations := CreateFirst(b.obligations, os, a.stop, a.closedAt)), Err(Stopped))
      else
        var round := computed.(closedAt := Some(a.closedAt), closedBy := a.closedBy);
        (Books(b.rounds[a.month := round], CreateFirst(b.obligations, os, |os|, a.closedAt)), Ok(round))
  }

  // The closing panics exactly for a month that does not parse, and for December 9999, of which
  // the next month does not; but a month that is closed already is reported first.
  lemma PanicsIff(b: Books, a: Attempt)
    ensures CloseOf(b, a).1 == Err(MonthPanics) <==>
            a.month !in b.rounds && (!Valid(a.month) || a.month == FromIndex(MONTH_COUNT - 1))
  {
    if Valid(a.month) {
      LastMonth(a.month);
    }
    AssembleDoesNotPanic(b.rounds, a.inputs, a.month);
  }

  lemma LastMonth(m: Month)
    requires Valid(m)
    ensures !Valid(Next(m)) <==> m == FromIndex(MONTH_COUNT - 1)
  {
    AddIsAddition(m, 1);
    ValidateIsParse(m);
    ParseFromIndex(MONTH_COUNT - 1);
  }

  lemma AssembleDoesNotPanic(rounds: map<Month, Round>, inputs: Inputs, m: Month)
    ensures AssembleOf(rounds, inputs, m) != Err(MonthPanics)
  {
  }

  // The program in effect is listed, effective, and no effective program is later.
  lemma {:induction false} ProgramForIsLatest(programs: seq<Program>, m: Month)
    ensures ProgramFor(programs, m).None? <==> forall p | p in programs :: Before(m, p.effectiveFrom)
    ensures ProgramFor(programs, m).Some? ==>
              var best := ProgramFor(programs, m).value;
              && best in programs && !Before(m, best.effectiveFrom)
              && forall p | p in programs && !Before(m, p.effectiveFrom) ::
                   !Before(best.effectiveFrom, p.effectiveFrom)
  {
    if programs != [] {
      var n := |programs| - 1;
      ProgramForIsLatest(programs[..n], m);
      assert programs == programs[..n] + [programs[n]];
      var best := ProgramFor(programs[..n], m);
      if best.Some? {
        forall p | p in programs[..n] && Before(best.value.effectiveFrom, programs[n].effectiveFrom)
                   && Before(programs[n].effectiveFrom, p.effectiveFrom)
          ensures Before(best.value.effectiveFrom, p.effectiveFrom)
        {
          LessTransitive(best.value.effectiveFrom, programs[n].effectiveFrom, p.effectiveFrom);
        }
      }
      LessTrichotomy(programs[n].effectiveFrom, programs[n].effectiveFrom);
    }
  }

  // No effective program is later than p.
  ghost predicate IsLatest(programs: seq<Program>, m: Month, p: Program) {
    && p in programs && !Before(m, p.effectiveFrom)
    && forall q | q in programs && !Before(m, q.effectiveFrom) :: !Before(p.effectiveFrom, q.effectiveFrom)
  }

  ghost predicate TiedPrograms(programs: seq<Program>, m: Month) {
    exists p, q :: IsLatest(programs, m, p) && IsLatest(programs, m, q) && p != q
  }

  ghost predicate SameInEveryOrder(programs: seq<Program>, m: Month) {
    forall listed: seq<Program> | multiset(listed) == multiset(programs) ::
      ProgramFor(listed, m) == ProgramFor(programs, m)
  }

  // Of the latest effective programs the first listed is found.
  lemma {:induction false} FirstLatestIsFound(p: Program, rest: seq<Program>, m: Month)
    requires IsLatest([p] + rest, m, p)
    ensures ProgramFor([p] + rest, m) == Some(p)
  {
    var all, n := [p] + rest, |rest|;
    if n == 0 {
      assert all[..0] == [] && all[0] == p;
    } else {
      assert all[..n] == [p] + rest[..n - 1] && all[n] == rest[n - 1];
      forall q | q in [p] + rest[..n - 1] ensures q in all {
      }
      FirstLatestIsFound(p, rest[..n - 1], m);
      assert rest[n - 1] in all;
    }
  }

  lemma {:induction false} LatestIsFound(programs: seq<Program>, m: Month, p: Program)
    requires IsLatest(programs, m, p)
    ensures exists listed: seq<Program> ::
              multiset(listed) == multiset(programs) && ProgramFor(listed, m) == Some(p)
  {
    var k :| 0 <= k < |programs| && programs[k] == p;
    var rest := programs[..k] + programs[k + 1..];
    MultisetWithout(programs, k);
    var listed := [p] + rest;
    assert multiset(listed) == multiset{p} + multiset(rest);
    SameElements(listed, programs);
    FirstLatestIsFound(p, rest, m);
  }

  // The program found is the same in every listing order exactly when no two programs are the
  // latest effective ones.
  lemma ProgramForPermutation(programs: seq<Program>, m: Month)
    ensures SameInEveryOrder(programs, m) <==> !TiedPrograms(programs, m)
  {
    if p, q :| IsLatest(programs, m, p) && IsLatest(programs, m, q) && p != q {
      LatestIsFound(programs, m, p);
      LatestIsFound(programs, m, q);
    } else {
      forall listed: seq<Program> | multiset(listed) == multiset(programs)
        ensures ProgramFor(listed, m) == ProgramFor(programs, m)
      {
        SameElements(listed, programs);
        ProgramForIsLatest(programs, m);
        ProgramForIsLatest(listed, m);
        if ProgramFor(programs, m).Some? {
          assert IsLatest(programs, m, ProgramFor(programs, m).value);
          assert IsLatest(programs, m, ProgramFor(listed, m).value);
        }
      }
    }
  }

  // Two programs that take effect in one month: the first listed is found.
  lemma {:induction false} TiedProgramsDiffer(p: Program, q: Program, m: Month)
    requires p != q && p.effectiveFrom == q.effectiveFrom && !Before(m, p.effectiveFrom)
    ensures ProgramFor([p, q], m) == Some(p) && ProgramFor([q, p], m) == Some(q)
  {
    LessTrichotomy(p.effectiveFrom, q.effectiveFrom);
    assert [p, q] == [p] + [q] && [q, p] == [q] + [p];
    FirstLatestIsFound(p, [q], m);
    FirstLatestIsFound(q, [p], m);
  }

  ghost predicate Creatable(os: seq<Obligation>, m: Month) {
    forall i | 0 <= i < |os| :: os[i].month == m && os[i].account != "" && os[i].state == Earned
  }

  ghost predicate OnePerEntitlement(os: seq<Obligation>, round: Round, p: Program, m: Month)
    requires Valid(m)
  {
    && Creatable(os, m) && AscendingAccounts(os)
    && SumBy(os, Owing()) == round.AllocatedCents()
    && (forall o :: o in os <==> Earns(round.entitlements, o, p, m))
  }

  lemma ObligationsAreCreatable(
    p: Program, m: Month, receipts: seq<Receipt>, awards: seq<Award>, carry: int,
    round: Round, os: seq<Obligation>)
    requires ComputeRoundOf(p, m, receipts, awards, carry) == Ok((round, os))
    ensures Valid(m) && OnePerEntitlement(os, round, p, m)
  {
    RoundAddsUp(p, m, receipts, awards, carry, round, os);
    ComputedParts(p, m, receipts, awards, carry, round, os);
    ObligationsMatchEntitlements(round.entitlements, p, m);
    ObligationsAscend(round.entitlements, p, m);
    ObligationsAddUp(round.entitlements, p, m);
    forall i | 0 <= i < |os|
      ensures os[i].month == m && os[i].account != "" && os[i].state == Earned
    {
      assert os[i] in os;
    }
  }

  // ----- the ledger

  datatype Creation = Created | AlreadyExists | Invalid

  class Ledger {
    var programs: seq<Program>
    var receipts: seq<Receipt>
    var awards: seq<Award>
    var rounds: map<Month, Round>
    var obligations: map<string, Obligation>

    constructor ()
      ensures programs == [] && receipts == [] && awards == []
      ensures rounds == map[] && obligations == map[]
    {
      programs, receipts, awards := [], [], [];
      rounds, obligations := map[], map[];
    }

    ghost function Kept(): Books
      reads this
    {
      Books(rounds, obligations)
    }

    ghost function Read(): Inputs
      reads this
    {
      Inputs(programs, receipts, awards)
    }

    /** documentProgramStore.ProgramFor: scans the programs for the latest effective one. */
    method FindProgram(m: Month) returns (r: Option<Program>)
      ensures r == ProgramFor(programs, m)
    {
      r := None;
      for i := 0 to |programs|
        invariant r == ProgramFor(programs[..i], m)
      {
        var p := programs[i];
        assert programs[..i + 1][..i] == programs[..i];
        if Before(m, p.effectiveFrom) {
          continue;
        }
        if r.None? || Before(r.value.effectiveFrom, p.effectiveFrom) {
          r := Some(p);
        }
      }
      assert programs[..|programs|] == programs;
    }

    method ListMonthReceipts(m: Month) returns (r: seq<Receipt>)
      ensures r == ReceiptsIn(receipts, m)
    {
      r := [];
      for i := 0 to |receipts|
        invariant r == ReceiptsIn(receipts[..i], m)
      {
        assert receipts[..i + 1][..i] == receipts[..i];
        if receipts[i].month == m {
          r := r + [receipts[i]];
        }
      }
      assert receipts[..|receipts|] == receipts;
    }

    method ListApprovedAwards() returns (r: seq<Award>)
      ensures r == ApprovedAwards(awards)
    {
      r := [];
      for i := 0 to |awards|
        invariant r == ApprovedAwards(awards[..i])
      {
        assert awards[..i + 1][..i] == awards[..i];
        if awards[i].status == Approved {
          r := r + [awards[i]];
        }
      }
      assert awards[..|awards|] == awards;
    }

    /** The unallocated balance of the round before m; the stored rounds are read in any order. */
    method Carryforward(m: Month) returns (r: Result<int, CloseError>)
      requires Valid(m)
      ensures r == CarryforwardOf(rounds, m)
    {
      if Prev(m) in rounds {
        return Ok(rounds[Prev(m)].unallocatedCents);
      }
      var pending := rounds.Keys;
      while pending != {}
        invariant pending <= rounds.Keys
        invariant forall k | k in rounds && k !in pending :: !Before(rounds[k].month, m)
        decreases |pending|
      {
        var k :| k in pending;
        pending := pending - {k};
        if Before(rounds[k].month, m) {
          return Err(Gap);
        }
      }
      return Ok(0);
    }

    method Assemble(m: Month) returns (r: Result<(Round, seq<Obligation>), CloseError>)
      ensures r == AssembleOf(rounds, Read(), m)
    {
      if !Valid(m) {
        return Err(BadMonth);
      }
      var program := FindProgram(m);
      if program.None? {
        return Err(NoProgram);
      }
      var monthReceipts := ListMonthReceipts(m);
      var approved := ListApprovedAwards();
      var carryforward := Carryforward(m);
      if carryforward.Err? {
        return Err(carryforward.error);
      }
      var computed := ComputeRound(program.value, m, monthReceipts, approved, carryforward.value);
      if computed.Err? {
        return Err(NotComputable(computed.error));
      }
      return Ok(computed.value);
    }

    /** Computes the round and its obligations without keeping anything. */
    method Estimate(m: Month) returns (r: Result<(Round, seq<Obligation>), CloseError>)
      ensures AssembleOf(rounds, Read(), m).Err? ==> r == AssembleOf(rounds, Read(), m)
      ensures AssembleOf(rounds, Read(), m).Ok? ==> r.Ok?
      ensures r.Ok? ==>
                var computed := AssembleOf(rounds, Read(), m).value;
                && r.value.0 == computed.0 && |r.value.1| == |computed.1|
                && forall i | 0 <= i < |computed.1| ::
                     r.value.1[i] == computed.1[i].(state := Estimated)
    {
      r := Assemble(m);
      if r.Ok? {
        var os := r.value.1;
        for i := 0 to |os|
          invariant |os| == |r.value.1|
          invariant forall k | 0 <= k < i :: os[k] == r.value.1[k].(state := Estimated)
          invariant forall k | i <= k < |os| :: os[k] == r.value.1[k]
        {
          os := os[i := os[i].(state := Estimated)];
        }
        r := Ok((r.value.0, os));
      }
    }

    /** documentObligationStore.CreateObligation: create if absent. */
    method CreateObligation(o: Obligation) returns (r: Creation)
      modifies this`obligations
      ensures r == if !Valid(o.month) || o.account == "" then Invalid
                   else if o.ID() in old(obligations) then AlreadyExists else Created
      ensures obligations == if r == Created then old(obligations)[o.ID() := o] else old(obligations)
    {
      if !Valid(o.month) || o.account == "" {
        return Invalid;
      }
      if o.ID() in obligations {
        return AlreadyExists;
      }
      obligations := obligations[o.ID() := o];
      return Created;
    }

    // Creates the obligations one by one; those left by an earlier attempt are kept.
    method CreateObligations(os: seq<Obligation>, ghost m: Month, closedAt: Instant, stop: nat)
      requires Valid(m) && Creatable(os, m)
      modifies this`obligations
      ensures obligations
                == CreateFirst(old(obligations), os, if stop < |os| then stop else |os|, closedAt)
    {
      for i := 0 to |os|
        invariant i <= stop && obligations == CreateFirst(old(obligations), os, i, closedAt)
      {
        if i == stop {
          return;
        }
        assert StampedAll(os, closedAt)[i].ID() == IDs(os)[i];
        var created := CreateObligation(Stamped(os[i], closedAt));
        assert created != Invalid;
      }
    }

    /** Freezes month m: creates its obligations, then its round, which is the commit point. */
    method CloseRound(m: Month, closedAt: Instant, closedBy: string, stop: nat)
      returns (r: Result<Round, CloseError>)
      modifies this`rounds, this`obligations
      ensures (Kept(), r) == CloseOf(old(Kept()), Attempt(m, closedAt, closedBy, Read(), stop))
      ensures Read() == old(Read())
    {
      if m in rounds {
        return Err(RoundClosed);
      }
      if !Valid(m) || !Valid(Next(m)) {
        return Err(MonthPanics);
      }
      if BeforeMonth(closedAt, Index(Next(m))) {
        return Err(NotEnded);
      }
      var assembled := Assemble(m);
      if assembled.Err? {
        return Err(assembled.error);
      }
      var (computed, os) := assembled.value;
      var round := computed.(closedAt := Some(closedAt), closedBy := closedBy);
      AssembledAreCreatable(rounds, Read(), m);
      CreateObligations(os, m, closedAt, stop);
      if stop <= |os| {
        return Err(Stopped);
      }
      rounds := rounds[m := round];
      return Ok(round);
    }
  }

  // An assembled round comes with one creatable obligation for each positive entitlement.
  lemma {:induction false} AssembledAreCreatable(rounds: map<Month, Round>, inputs: Inputs, m: Month)
    requires AssembleOf(rounds, inputs, m).Ok?
    ensures Valid(m) && ProgramFor(inputs.programs, m).Some?
    ensures var (round, os) := AssembleOf(rounds, inputs, m).value;
            OnePerEntitlement(os, round, ProgramFor(inputs.programs, m).value, m)
  {
    var (round, os) := AssembleOf(rounds, inputs, m).value;
    ObligationsAreCreatable(
      ProgramFor(inputs.programs, m).value, m, ReceiptsIn(inputs.receipts, m),
      ApprovedAwards(inputs.awards), CarryforwardOf(rounds, m).value, round, os);
  }
}
