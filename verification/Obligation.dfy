/** contributor/obligation.go: payables, their states and their audit trail. */
module Obligations {
  import opened Months
  import opened Results

  datatype State = Estimated | Earned | Owed | Initiated | Settled

  datatype Event = Event(from: State, to: State, at: Instant, note: string)

  // When an obligation falls due: some days after the first instant of a month.
  datatype Due = Due(month: int, days: int)

  datatype Obligation = Obligation(
    account: string, month: Month, amountCents: int, currency: string, dueDate: Due,
    state: State, providerTransferRef: string, history: seq<Event>)
  {
    function ID(): string {
      ObligationID(month, account)
    }

    function Transition(to: State, at: Instant, note: string): Option<Obligation> {
      if to in LegalFrom(state)
      then Some(this.(state := to, history := history + [Event(state, to, at, note)]))
      else None
    }
  }

  // obligationTransitions
  function LegalFrom(s: State): seq<State> {
    match s
    case Estimated => [Earned]
    case Earned => [Owed]
    case Owed => [Initiated]
    case Initiated => [Settled, Owed]
    case Settled => [Owed]
  }

  function ObligationID(m: Month, account: string): string {
    m + ":" + account
  }

  // An id is the month, a colon and the account.
  lemma ObligationIDParts(m: Month, account: string)
    requires Valid(m)
    ensures var id := ObligationID(m, account);
            |id| == 8 + |account| && id[..7] == m && id[7] == ':' && id[8..] == account
  {
  }

  // Obligation ids tell valid months and accounts apart.
  lemma ObligationIDInjective(m: Month, account: string, m': Month, account': string)
    requires Valid(m) && Valid(m')
    requires ObligationID(m, account) == ObligationID(m', account')
    ensures m == m' && account == account'
  {
    var id := ObligationID(m, account);
    assert m == id[..7] && m' == id[..7];
    assert account == id[8..] && account' == id[8..];
  }

  // The six legal steps.
  ghost predicate LegalStep(from: State, to: State) {
    || (from == Estimated && to == Earned)
    || (from == Earned && to == Owed)
    || (from == Owed && to == Initiated)
    || (from == Initiated && to == Settled)   // the transfer went through
    || (from == Initiated && to == Owed)      // it failed
    || (from == Settled && to == Owed)        // it was reversed
  }

  // A transition succeeds exactly for a legal step; it records the step with its time and note
  // after what was recorded before, and changes nothing else but the state.
  lemma TransitionIff(o: Obligation, to: State, at: Instant, note: string)
    ensures o.Transition(to, at, note).Some? <==> LegalStep(o.state, to)
    ensures LegalStep(o.state, to) ==>
              var next := o.Transition(to, at, note).value;
              && next.state == to && next.history == o.history + [Event(o.state, to, at, note)]
              && next == o.(state := to, history := next.history)
  {
  }

  // An earned obligation can be paid: it falls due, its transfer is initiated, and settles.
  lemma {:induction false} EarnedCanSettle(o: Obligation, t1: Instant, t2: Instant, t3: Instant, note: string)
    requires o.state == Earned
    ensures var moves := [Move(Owed, t1, note), Move(Initiated, t2, note), Move(Settled, t3, note)];
            Run(o, moves).Some? && Run(o, moves).value.state == Settled
            && Run(o, moves).value.history
                 == o.history + [Event(Earned, Owed, t1, note), Event(Owed, Initiated, t2, note),
                                 Event(Initiated, Settled, t3, note)]
  {
    var moves := [Move(Owed, t1, note), Move(Initiated, t2, note), Move(Settled, t3, note)];
    assert moves[1..] == [moves[1], moves[2]] && moves[1..][1..] == [moves[2]];
    var o1 := o.Transition(Owed, t1, note).value;
    var o2 := o1.Transition(Initiated, t2, note).value;
    var o3 := o2.Transition(Settled, t3, note).value;
    assert Run(o2, [moves[2]]) == Run(o3, []) by {
      assert [moves[2]][1..] == [];
    }
    assert o3.history == o.history + [Event(Earned, Owed, t1, note), Event(Owed, Initiated, t2, note),
                                      Event(Initiated, Settled, t3, note)];
  }

  // ----- audit trails

  // A connected chain of legal steps that starts with the event a round closing records.
  ghost predicate LegalTrail(h: seq<Event>) {
    && h != [] && h[0].from == Estimated && h[0].to == Earned
    && (forall i | 0 <= i < |h| :: h[i].to in LegalFrom(h[i].from))
    && (forall i | 1 <= i < |h| :: h[i].from == h[i - 1].to)
  }

  ghost predicate Audited(o: Obligation) {
    LegalTrail(o.history) && o.state == o.history[|o.history| - 1].to
  }

  datatype Move = Move(to: State, at: Instant, note: string)

  // Runs the moves in order; None as soon as one is illegal.
  function Run(o: Obligation, moves: seq<Move>): Option<Obligation>
    decreases |moves|
  {
    if moves == [] then Some(o)
    else
      match o.Transition(moves[0].to, moves[0].at, moves[0].note)
      case None => None
      case Some(next) => Run(next, moves[1..])
  }

  function Entries(h: seq<Event>, s: State): nat {
    if h == [] then 0
    else Entries(h[..|h| - 1], s) + if h[|h| - 1].to == s then 1 else 0
  }

  function Exits(h: seq<Event>, s: State): nat {
    if h == [] then 0
    else Exits(h[..|h| - 1], s) + if h[|h| - 1].from == s then 1 else 0
  }

  lemma TransitionKeepsAudit(o: Obligation, move: Move)
    requires Audited(o)
    ensures o.Transition(move.to, move.at, move.note).Some? ==>
              var next := o.Transition(move.to, move.at, move.note).value;
              && Audited(next) && o.history < next.history
              && next == o.(state := next.state, history := next.history)
  {
  }

  // Whatever legal moves follow, the history only grows, stays a legal trail that ends in the
  // current state, and nothing but state and history changes.
  lemma {:induction false} RunKeepsAudit(o: Obligation, moves: seq<Move>)
    requires Audited(o)
    ensures Run(o, moves).Some? ==>
              var end := Run(o, moves).value;
              && Audited(end) && o.history <= end.history
              && |end.history| == |o.history| + |moves|
              && end == o.(state := end.state, history := end.history)
    decreases |moves|
  {
    if moves != [] {
      TransitionKeepsAudit(o, moves[0]);
      var next := o.Transition(moves[0].to, moves[0].at, moves[0].note);
      if next.Some? {
        RunKeepsAudit(next.value, moves[1..]);
      }
    }
  }

  // Every legal trail that extends the history is reached by replaying its events: the reachable
  // obligations are exactly the audited ones.
  lemma {:induction false} TrailIsReachable(o: Obligation, h: seq<Event>) returns (moves: seq<Move>)
    requires Audited(o) && LegalTrail(h) && o.history <= h
    ensures Run(o, moves) == Some(o.(state := h[|h| - 1].to, history := h))
    decreases |h| - |o.history|
  {
    var n := |o.history|;
    if n == |h| {
      moves := [];
      assert o.history == h;
    } else {
      var move := Move(h[n].to, h[n].at, h[n].note);
      var next := o.Transition(move.to, move.at, move.note).value;
      assert h[n].from == h[n - 1].to == o.state;
      assert next.history == h[..n + 1];
      TransitionKeepsAudit(o, move);
      var rest := TrailIsReachable(next, h);
      moves := [move] + rest;
      assert moves[1..] == rest;
    }
  }

  // Estimated and Earned are never entered again after the closing of the round.
  lemma NeverEarnedTwice(h: seq<Event>, i: nat)
    requires LegalTrail(h) && 1 <= i < |h|
    ensures h[i].to != Estimated && h[i].to != Earned
    ensures h[i].from != Estimated
  {
    assert h[i - 1].to in LegalFrom(h[i - 1].from);
    assert h[i].to in LegalFrom(h[i].from);
  }

  lemma {:induction false} EntriesMatchExits(h: seq<Event>, s: State)
    requires LegalTrail(h)
    ensures Entries(h, s) - Exits(h, s)
              == (if h[|h| - 1].to == s then 1 else 0) - (if s == Estimated then 1 else 0)
  {
    var n := |h| - 1;
    if n == 0 {
      assert h[..0] == [];
    } else {
      assert LegalTrail(h[..n]);
      EntriesMatchExits(h[..n], s);
      assert h[n].from == h[n - 1].to;
    }
  }

  lemma {:induction false} OwedLeavesByInitiating(h: seq<Event>)
    requires forall i | 0 <= i < |h| :: h[i].to in LegalFrom(h[i].from)
    ensures Exits(h, Owed) == Entries(h, Initiated)
  {
    if h != [] {
      var n := |h| - 1;
      OwedLeavesByInitiating(h[..n]);
      assert h[n].to in LegalFrom(h[n].from);
    }
  }

  // Each time it fell due is matched by one initiated transfer, but for the current one; each
  // settlement is matched by a reversal, unless it stands.
  lemma TransfersMatchDues(o: Obligation)
    requires Audited(o)
    ensures Entries(o.history, Owed) - Entries(o.history, Initiated) == if o.state == Owed then 1 else 0
    ensures Entries(o.history, Settled) - Exits(o.history, Settled) == if o.state == Settled then 1 else 0
  {
    EntriesMatchExits(o.history, Owed);
    EntriesMatchExits(o.history, Settled);
    OwedLeavesByInitiating(o.history);
  }

  // What the audit trail of an obligation tells, wherever its moves have led.
  ghost predicate Accounted(o: Obligation) {
    && Audited(o)
    && (forall i | 1 <= i < |o.history| :: o.history[i].to != Estimated && o.history[i].to != Earned)
    && Entries(o.history, Owed) - Entries(o.history, Initiated) == (if o.state == Owed then 1 else 0)
    && Entries(o.history, Settled) - Exits(o.history, Settled) == (if o.state == Settled then 1 else 0)
  }

  lemma AuditedIsAccounted(o: Obligation)
    requires Audited(o)
    ensures Accounted(o)
  {
    forall i | 1 <= i < |o.history| ensures o.history[i].to != Estimated && o.history[i].to != Earned {
      NeverEarnedTwice(o.history, i);
    }
    TransfersMatchDues(o);
  }
}
