/** Obligations from the closing that creates them on, through whatever is done with them
    (contributor/ledger.go, obligation.go and document_store.go). */
module LedgerAudit {
  import opened Closing
  import opened CreateOnly
  import opened LedgerMonths
  import opened LedgerRetries
  import opened LedgerRuns
  import opened Months
  import opened Obligations

  // An attempt to close a month, or a move of a stored obligation, which is stored again.
  datatype Act = CloseAct(a: Attempt) | MoveAct(id: string, move: Move)

  ghost function Do(b: Books, act: Act): Books {
    match act
    case CloseAct(a) => CloseOf(b, a).0
    case MoveAct(id, move) =>
      if id !in b.obligations then b
      else
        match b.obligations[id].Transition(move.to, move.at, move.note)
        case None => b
        case Some(next) => b.(obligations := b.obligations[next.ID() := next])
  }

  ghost function DoAll(b: Books, acts: seq<Act>): Books
    decreases |acts|
  {
    if acts == [] then b else DoAll(Do(b, acts[0]), acts[1..])
  }

  // Every obligation is stored under its id, with a legal trail that ends in its state.
  ghost predicate AllAudited(b: Books) {
    forall id | id in b.obligations :: b.obligations[id].ID() == id && Audited(b.obligations[id])
  }

  // The same obligation, with more history.
  ghost predicate Continues(o: Obligation, o': Obligation) {
    o.history <= o'.history && o' == o.(state := o'.state, history := o'.history)
  }

  ghost predicate AllContinue(b: Books, b': Books) {
    forall id | id in b.obligations :: id in b'.obligations && Continues(b.obligations[id], b'.obligations[id])
  }

  // What a closing creates has a trail of one event, from Estimated to Earned.
  lemma CreatedIsAudited(o: Obligation, closedAt: Instant)
    requires o.state == Earned
    ensures Audited(Stamped(o, closedAt))
    ensures Stamped(o, closedAt).history
              == [Event(Estimated, Earned, closedAt, "round " + o.month + " closed")]
    ensures Stamped(o, closedAt) == o.(history := Stamped(o, closedAt).history)
  {
  }

  // It can be paid.
  lemma CreatedCanSettle(o: Obligation, closedAt: Instant, t1: Instant, t2: Instant, t3: Instant, note: string)
    requires o.state == Earned
    ensures var moves := [Move(Owed, t1, note), Move(Initiated, t2, note), Move(Settled, t3, note)];
            var paid := Run(Stamped(o, closedAt), moves);
            paid.Some? && paid.value.state == Settled && |paid.value.history| == 4
  {
    EarnedCanSettle(Stamped(o, closedAt), t1, t2, t3, note);
  }

  // A legal move is stored, with its event; any other leaves the books as they are.
  lemma MoveIsStored(b: Books, id: string, move: Move)
    requires AllAudited(b)
    ensures if id in b.obligations && LegalStep(b.obligations[id].state, move.to)
            then Do(b, MoveAct(id, move)).rounds == b.rounds
                 && Do(b, MoveAct(id, move)).obligations
                      == b.obligations[id := b.obligations[id].(
                           state := move.to,
                           history := b.obligations[id].history
                                      + [Event(b.obligations[id].state, move.to, move.at, move.note)])]
            else Do(b, MoveAct(id, move)) == b
  {
    if id in b.obligations {
      TransitionIff(b.obligations[id], move.to, move.at, move.note);
    }
  }

  lemma CloseKeepsAudit(b: Books, a: Attempt)
    requires AllAudited(b)
    ensures AllAudited(CloseOf(b, a).0) && AllContinue(b, CloseOf(b, a).0)
  {
    if PreparedOf(b.rounds, a).Ok? {
      var os, after := PreparedOf(b.rounds, a).value.1, CloseOf(b, a).0.obligations;
      CloseCreates(b, a, os);
      PreparedObligations(b.rounds, a);
      forall id | id in after && id !in b.obligations ensures after[id].ID() == id && Audited(after[id]) {
        var i :| 0 <= i < |os| && IDs(os)[i] == id;
        assert HasValue(after, IDs(os)[i], FirstValues(StampedAll(os, a.closedAt), Least(a.stop, |os|))(i));
        CreatedIsAudited(os[i], a.closedAt);
      }
    }
  }

  lemma MoveKeepsAudit(b: Books, id: string, move: Move)
    requires AllAudited(b)
    ensures AllAudited(Do(b, MoveAct(id, move))) && AllContinue(b, Do(b, MoveAct(id, move)))
  {
    if id in b.obligations {
      TransitionKeepsAudit(b.obligations[id], move);
    }
  }

  // Over any run of closings, failing anywhere, and moves, in any order: every stored obligation
  // has a legal trail that ends in its state, and no obligation is lost, is changed but for its
  // state, or loses any of its history.
  lemma {:induction false} RunKeepsAllAudited(b: Books, acts: seq<Act>)
    requires AllAudited(b)
    ensures AllAudited(DoAll(b, acts)) && AllContinue(b, DoAll(b, acts))
    decreases |acts|
  {
    if acts != [] {
      var next := Do(b, acts[0]);
      match acts[0] {
        case CloseAct(a) => CloseKeepsAudit(b, a);
        case MoveAct(id, move) => MoveKeepsAudit(b, id, move);
      }
      RunKeepsAllAudited(next, acts[1..]);
      var end := DoAll(b, acts);
      forall id | id in b.obligations
        ensures id in end.obligations && Continues(b.obligations[id], end.obligations[id])
      {
        ContinuesFurther(b.obligations[id], next.obligations[id], end.obligations[id]);
      }
    }
  }

  lemma ContinuesFurther(o: Obligation, o1: Obligation, o2: Obligation)
    requires Continues(o, o1) && Continues(o1, o2)
    ensures Continues(o, o2)
  {
    assert o2.history[..|o.history|] == o1.history[..|o.history|];
  }

  // From empty stores, every obligation is fully accounted for, always.
  lemma {:induction false} EveryObligationIsAccounted(acts: seq<Act>, id: string)
    requires id in DoAll(EMPTY, acts).obligations
    ensures DoAll(EMPTY, acts).obligations[id].ID() == id
    ensures Accounted(DoAll(EMPTY, acts).obligations[id])
  {
    RunKeepsAllAudited(EMPTY, acts);
    AuditedIsAccounted(DoAll(EMPTY, acts).obligations[id]);
  }

  // The obligation of a closed round, whatever attempts failed before and whatever legal moves
  // follow, keeps its account, month, amount, currency and due date; its trail starts with the
  // closing that created it, grows by one event a move, and is accounted for.
  lemma {:induction false} ClosedRoundIsAccounted(b0: Books, failed: seq<Attempt>, last: Attempt, i: nat, moves: seq<Move>)
    requires Untouched(b0, last.month) && AllFail(b0, failed)
    requires forall j | 0 <= j < |failed| :: Frozen(failed[j], last)
    requires CloseOf(RunAll(b0, failed), last).1.Ok?
    requires PreparedOf(b0.rounds, last).Ok? && i < |PreparedOf(b0.rounds, last).value.1|
    ensures var (o, b) := (PreparedOf(b0.rounds, last).value.1[i], CloseOf(RunAll(b0, failed), last).0);
            && o.ID() in b.obligations
            && (Run(b.obligations[o.ID()], moves).Some? ==>
                  var end := Run(b.obligations[o.ID()], moves).value;
                  && Accounted(end) && end == o.(state := end.state, history := end.history)
                  && Stamped(o, CreatedAt(failed, last, i)).history <= end.history
                  && |end.history| == 1 + |moves|)
  {
    RetriesConverge(b0, failed, last);
    PreparedObligations(b0.rounds, last);
    var os := PreparedOf(b0.rounds, last).value.1;
    var created := Stamped(os[i], CreatedAt(failed, last, i));
    assert IDs(os)[i] == os[i].ID();
    CreatedIsAudited(os[i], CreatedAt(failed, last, i));
    RunKeepsAudit(created, moves);
    if Run(created, moves).Some? {
      AuditedIsAccounted(Run(created, moves).value);
    }
  }
}
