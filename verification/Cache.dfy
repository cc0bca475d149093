/** ipblock/cache.go: a copy of a blocklist, reloaded in the background once it is ttl old.

    The critical sections of `current` and `load` are functions on the guarded fields; the class
    runs them on the fields themselves, and CacheRuns interleaves them. */
module Caches {
  import opened Blocklist
  import opened BlockSets
  import opened Prefixes
  import opened Results

  type Error = string

  // The guarded fields: the last copy loaded, the error of the last load, when the last load
  // started (None before the first), and the load in flight.
  datatype Fields = Fields(
    copy: Option<Blocks>, err: Option<Error>, attempted: Option<Time>, loading: Option<nat>)

  // What the first critical section tells its caller to do.
  datatype Next = Answer(copy: Blocks) | Fail(err: Option<Error>) | Await(load: nat)

  predicate Due(f: Fields, ttl: Time, now: Time) {
    f.loading.None? && (f.attempted.None? || now - f.attempted.value >= ttl)
  }

  // The first critical section of current; it reads the clock at t and, to start load id, at t'.
  function Enter(f: Fields, ttl: Time, t: Time, t': Time, id: nat): (Fields, Next) {
    var g := if Due(f, ttl, t) then f.(loading := Some(id), attempted := Some(t')) else f;
    (g, if g.copy.Some? then Answer(g.copy.value)
        else if g.loading.None? then Fail(g.err)
        else Await(g.loading.value))
  }

  // The second critical section of current, after the awaited load has finished.
  function Finish(f: Fields): Next {
    if f.copy.None? then Fail(f.err) else Answer(f.copy.value)
  }

  // The critical section of load, with what the source listed.
  function Commit(f: Fields, listed: Result<seq<Block>, Error>): Fields {
    match listed
    case Err(e) => f.(loading := None, err := Some(e))
    case Ok(blocks) => f.(loading := None, copy := Some(Latest(blocks)), err := None)
  }

  class Cache {
    const ttl: Time
    var copy: Option<BlockSet>
    var err: Option<Error>
    var attempted: Option<Time>
    var loading: Option<nat>

    ghost predicate Valid()
      reads this
    {
      copy.Some? ==> Filed(copy.value.byPrefix) && copy.value.Indexes()
    }

    ghost function View(): Fields
      reads this
    {
      Fields(if copy.None? then None else Some(copy.value.byPrefix), err, attempted, loading)
    }

    constructor (ttl: Time)
      ensures Valid() && View() == Fields(None, None, None, None) && this.ttl == ttl
    {
      this.ttl := ttl;
      copy, err, attempted, loading := None, None, None, None;
    }

    method EnterCurrent(t: Time, t': Time, id: nat)
      returns (found: Option<BlockSet>, wait: Option<nat>, error: Option<Error>, started: bool)
      requires Valid()
      modifies this`loading, this`attempted
      ensures Valid() && View() == Enter(old(View()), ttl, t, t', id).0
      ensures started <==> Due(old(View()), ttl, t)
      ensures found == copy
      ensures match Enter(old(View()), ttl, t, t', id).1
              case Answer(m) => found.Some? && found.value.byPrefix == m
              case Fail(e) => found.None? && wait.None? && error == e
              case Await(n) => found.None? && wait == Some(n)
    {
      started := false;
      if loading.None? && (attempted.None? || t - attempted.value >= ttl) {
        loading := Some(id);
        attempted := Some(t');
        started := true;
      }
      found, wait, error := copy, loading, err;
    }

    method FinishCurrent() returns (found: Option<BlockSet>, error: Option<Error>)
      requires Valid()
      ensures found == copy
      ensures match Finish(View())
              case Answer(m) => found.Some? && found.value.byPrefix == m
              case Fail(e) => found.None? && error == e
              case Await(_) => false
    {
      if copy.None? {
        return None, err;
      }
      return copy, None;
    }

    // What Check does with the copy that current returned; it reads the clock at now.
    method CheckCopy(found: BlockSet, a: Addr, now: Time) returns (r: Option<Option<Block>>)
      requires Filed(found.byPrefix) && found.Indexes()
      ensures Checks(found.byPrefix, a, now, r)
    {
      var c := CanonicalAddr(a);
      if c.None? {
        return None;
      }
      CanonicalAddrIsIdempotent(a);
      var b := Lookup(found, c.value, now);
      return Some(b);
    }

    method CommitLoad(listed: Result<seq<Block>, Error>)
      requires Valid() && (listed.Ok? ==> AllCanonical(listed.value))
      modifies this`copy, this`err, this`loading
      ensures Valid() && View() == Commit(old(View()), listed)
    {
      loading := None;
      if listed.Err? {
        err := Some(listed.error);
        return;
      }
      var s := NewBlockSet(listed.value);
      copy, err := Some(s), None;
    }
  }
}

/** Every interleaving of calls and loads of the cache. */
module CacheRuns {
  import opened Blocklist
  import opened BlockSets
  import opened Caches
  import opened Prefixes
  import opened Results

  // A load lists its source, commits, and only then closes its channel.
  datatype Phase = Loading | Committed | Closed

  datatype Load = Load(start: Time, phase: Phase)

  // Check asks for a valid address, List for all blocks.
  datatype Query = CheckAddr(a: Addr) | ListAll

  datatype Reply = Found(block: Option<Block>) | Listed(blocks: seq<Block>)

  // What a call is doing: it waits for a load, or has the copy to answer from, or has answered at
  // the time it then read. `seen` counts the loads committed when it read the copy.
  datatype Stage =
    | Waiting(load: nat)
    | Holding(copy: Blocks, seen: nat)
    | Answered(now: Time, seen: nat, reply: Reply)
    | Failed(err: Option<Error>)
    | Cancelled

  datatype Call = Call(query: Query, stage: Stage)

  // The answer to a query from a map of blocks.
  ghost predicate Answers(m: Blocks, query: Query, now: Time, reply: Reply) {
    match query
    case CheckAddr(a) => reply.Found? && Checks(m, a, now, Some(reply.block))
    case ListAll => reply.Listed? && Listing(m, now, reply.blocks)
  }

  // The loads in the order they started, what the source listed for each committed one, and the
  // calls.
  datatype State = State(
    f: Fields, clock: Time, loads: seq<Load>, listed: seq<Result<seq<Block>, Error>>, calls: seq<Call>)

  datatype Step =
    | EnterStep(query: Query, t: Time, t': Time)   // a call runs its first critical section
    | Wake(call: nat)                       // a waiting call whose load has closed its channel
    | GiveUp(call: nat)                     // a waiting call whose context is done
    | AnswerStep(call: nat, now: Time, reply: Reply) // a call that holds a copy looks it up at now
    | CommitStep(result: Result<seq<Block>, Error>)
    | CloseStep(load: nat)

  function Outcome(next: Next, seen: nat): Stage {
    match next
    case Answer(copy) => Holding(copy, seen)
    case Fail(err) => Failed(err)
    case Await(load) => Waiting(load)
  }

  // The sources list canonical blocks.
  ghost predicate Enabled(s: State, step: Step) {
    match step
    case EnterStep(query, t, t') => s.clock <= t <= t' && query != CheckAddr(NoAddr)
    case Wake(c) => c < |s.calls| && s.calls[c].stage.Waiting?
                    && s.calls[c].stage.load < |s.loads| && s.loads[s.calls[c].stage.load].phase == Closed
    case GiveUp(c) => c < |s.calls| && s.calls[c].stage.Waiting?
    case AnswerStep(c, now, reply) => c < |s.calls| && s.calls[c].stage.Holding? && s.clock <= now
                                      && Answers(s.calls[c].stage.copy, s.calls[c].query, now, reply)
    case CommitStep(result) => s.f.loading.Some? && s.f.loading.value < |s.loads|
                               && s.loads[s.f.loading.value].phase == Loading
                               && (result.Ok? ==> AllCanonical(result.value))
    case CloseStep(l) => l < |s.loads| && s.loads[l].phase == Committed
  }

  function To(s: State, c: nat, stage: Stage): State
    requires c < |s.calls|
  {
    s.(calls := s.calls[c := s.calls[c].(stage := stage)])
  }

  ghost function Apply(s: State, step: Step, ttl: Time): State
    requires Enabled(s, step)
  {
    match step
    case EnterStep(query, t, t') =>
      var (g, next) := Enter(s.f, ttl, t, t', |s.loads|);
      s.(f := g, clock := t', calls := s.calls + [Call(query, Outcome(next, |s.listed|))],
         loads := if Due(s.f, ttl, t) then s.loads + [Load(t', Loading)] else s.loads)
    case Wake(c) => To(s, c, Outcome(Finish(s.f), |s.listed|))
    case GiveUp(c) => To(s, c, Cancelled)
    case AnswerStep(c, now, reply) =>
      To(s, c, Answered(now, s.calls[c].stage.seen, reply)).(clock := now)
    case CommitStep(result) =>
      var l := s.f.loading.value;
      s.(f := Commit(s.f, result), listed := s.listed + [result],
         loads := s.loads[l := s.loads[l].(phase := Committed)])
    case CloseStep(l) => s.(loads := s.loads[l := s.loads[l].(phase := Closed)])
  }

  // The blocks of the last successful load.
  function LastLoaded(listed: seq<Result<seq<Block>, Error>>): Option<Blocks> {
    if listed == [] then None
    else
      match listed[|listed| - 1]
      case Ok(blocks) => Some(Latest(blocks))
      case Err(_) => LastLoaded(listed[..|listed| - 1])
  }

  // The error of the last load, if it failed.
  function LastError(listed: seq<Result<seq<Block>, Error>>): Option<Error> {
    if listed == [] || listed[|listed| - 1].Ok? then None else Some(listed[|listed| - 1].error)
  }

  // The last successful load, and the error of a failed last load, by what was listed.
  lemma {:induction false} LastLoadedIs(listed: seq<Result<seq<Block>, Error>>, m: Blocks)
    ensures LastLoaded(listed) == Some(m) <==>
            exists i :: 0 <= i < |listed| && IsLastSuccess(listed, i) && m == Latest(listed[i].value)
    ensures LastLoaded(listed).None? <==> forall r | r in listed :: r.Err?
  {
    if listed != [] {
      var n := |listed| - 1;
      var before := listed[..n];
      LastLoadedIs(before, m);
      assert listed == before + [listed[n]];
      if listed[n].Err? {
        if i :| 0 <= i < n && IsLastSuccess(before, i) && m == Latest(before[i].value) {
          assert IsLastSuccess(listed, i);
        }
        if i :| 0 <= i < |listed| && IsLastSuccess(listed, i) && m == Latest(listed[i].value) {
          assert i < n && IsLastSuccess(before, i);
        }
      } else {
        assert IsLastSuccess(listed, n);
      }
    }
  }

  ghost predicate IsLastSuccess(listed: seq<Result<seq<Block>, Error>>, i: nat)
    requires i < |listed|
  {
    listed[i].Ok? && forall j | i < j < |listed| :: listed[j].Err?
  }

  // At most one load is in flight, the last one started, and it is the one the fields name.
  ghost predicate OneInFlight(s: State) {
    && (forall i | 0 <= i < |s.loads| :: s.loads[i].phase == Loading <==> s.f.loading == Some(i))
    && (s.f.loading.Some? ==> s.f.loading.value == |s.loads| - 1)
    && |s.listed| == |s.loads| - if s.f.loading.Some? then 1 else 0
  }

  // Loads start at least ttl apart.
  ghost predicate Spaced(s: State, ttl: Time) {
    && (forall i | 1 <= i < |s.loads| :: s.loads[i].start - s.loads[i - 1].start >= ttl)
    && s.f.attempted == (if s.loads == [] then None else Some(s.loads[|s.loads| - 1].start))
    && (s.loads != [] ==> s.loads[|s.loads| - 1].start <= s.clock)
  }

  // The fields hold the last successful load and the error of the last failed one.
  ghost predicate Current(s: State) {
    s.f.copy == LastLoaded(s.listed) && s.f.err == LastError(s.listed)
  }

  ghost predicate IsLastLoaded(s: State, seen: nat, copy: Blocks) {
    seen <= |s.listed| && LastLoaded(s.listed[..seen]) == Some(copy)
  }

  // Every answer is that of the last successful load the call saw, at the time it answered; no
  // call fails without an error.
  ghost predicate Truthful(s: State, call: Call) {
    match call.stage
    case Waiting(l) => l < |s.loads|
    case Holding(copy, seen) => IsLastLoaded(s, seen, copy)
    case Answered(now, seen, reply) =>
      exists copy :: IsLastLoaded(s, seen, copy) && Answers(copy, call.query, now, reply)
    case Failed(err) => err.Some?
    case Cancelled => true
  }

  ghost predicate Inv(s: State, ttl: Time) {
    && OneInFlight(s) && Spaced(s, ttl) && Current(s)
    && forall c | 0 <= c < |s.calls| :: Truthful(s, s.calls[c])
  }

  const START := State(Fields(None, None, None, None), 0, [], [], [])

  lemma {:induction false} LoadedOrFailed(listed: seq<Result<seq<Block>, Error>>)
    requires listed != []
    ensures LastLoaded(listed).Some? || LastError(listed).Some?
  {
  }

  lemma SpacedIsKept(s: State, step: Step, ttl: Time)
    requires Enabled(s, step) && Inv(s, ttl)
    ensures Spaced(Apply(s, step, ttl), ttl)
  {
    var s' := Apply(s, step, ttl);
    forall i | 1 <= i < |s'.loads| ensures s'.loads[i].start - s'.loads[i - 1].start >= ttl {
      assert i < |s.loads| ==> s'.loads[i].start == s.loads[i].start;
      assert s'.loads[i - 1].start == s.loads[i - 1].start;
    }
  }

  lemma OneInFlightIsKept(s: State, step: Step, ttl: Time)
    requires Enabled(s, step) && Inv(s, ttl)
    ensures OneInFlight(Apply(s, step, ttl))
  {
  }

  lemma CurrentIsKept(s: State, step: Step, ttl: Time)
    requires Enabled(s, step) && Inv(s, ttl)
    ensures Current(Apply(s, step, ttl))
  {
    if step.CommitStep? {
      assert (s.listed + [step.result])[..|s.listed|] == s.listed;
    }
  }

  lemma LastLoadedStays(s: State, s': State, seen: nat, copy: Blocks)
    requires IsLastLoaded(s, seen, copy) && s.listed <= s'.listed
    ensures IsLastLoaded(s', seen, copy)
  {
    assert s'.listed[..seen] == s.listed[..seen];
  }

  // An answer stays true: later commits do not change what had been listed before.
  lemma TruthStays(s: State, s': State, call: Call)
    requires Truthful(s, call) && |s.loads| <= |s'.loads| && s.listed <= s'.listed
    ensures Truthful(s', call)
  {
    match call.stage {
      case Holding(copy, seen) => LastLoadedStays(s, s', seen, copy);
      case Answered(now, seen, reply) =>
        var copy :| IsLastLoaded(s, seen, copy) && Answers(copy, call.query, now, reply);
        LastLoadedStays(s, s', seen, copy);
      case _ =>
    }
  }

  // A call that reads the fields when no load is in flight, or none is left to wait for,
  // finds a copy or an error.
  lemma ReadIsTruthful(s: State, query: Query, next: Next)
    requires Current(s) && s.listed != [] && next == Finish(s.f)
    ensures Truthful(s, Call(query, Outcome(next, |s.listed|)))
  {
    LoadedOrFailed(s.listed);
    assert s.listed[..|s.listed|] == s.listed;
  }

  lemma EnterIsTruthful(s: State, query: Query, t: Time, t': Time, ttl: Time)
    requires Inv(s, ttl) && Enabled(s, EnterStep(query, t, t'))
    ensures var next := Enter(s.f, ttl, t, t', |s.loads|).1;
            Truthful(Apply(s, EnterStep(query, t, t'), ttl), Call(query, Outcome(next, |s.listed|)))
  {
    if s.f.copy.Some? || (s.f.loading.None? && !Due(s.f, ttl, t)) {
      assert s.listed != [];
      LoadedOrFailed(s.listed);
      assert s.listed[..|s.listed|] == s.listed;
    }
  }

  // A waiting call wakes only after its load has committed.
  lemma WakeIsTruthful(s: State, c: nat, ttl: Time)
    requires Inv(s, ttl) && Enabled(s, Wake(c))
    ensures Truthful(s, s.calls[c].(stage := Outcome(Finish(s.f), |s.listed|)))
  {
    assert Truthful(s, s.calls[c]);
    assert s.loads[s.calls[c].stage.load].phase != Loading;
    assert s.listed != [];
    ReadIsTruthful(s, s.calls[c].query, Finish(s.f));
  }

  lemma AnswerIsTruthful(s: State, c: nat, now: Time, reply: Reply, ttl: Time)
    requires Inv(s, ttl) && Enabled(s, AnswerStep(c, now, reply))
    ensures Truthful(s, s.calls[c].(stage := Answered(now, s.calls[c].stage.seen, reply)))
  {
    assert Truthful(s, s.calls[c]);
    assert IsLastLoaded(s, s.calls[c].stage.seen, s.calls[c].stage.copy);
  }

  // The error of a failed last load.
  function FailureOf(listed: seq<Result<seq<Block>, Error>>): Error {
    if listed != [] && listed[|listed| - 1].Err? then listed[|listed| - 1].error else ""
  }

  ghost predicate InFlight(s: State) {
    exists i :: 0 <= i < |s.loads| && s.loads[i].phase == Loading
  }

  // A call starts a load exactly when none is in flight and there was none yet or the last one
  // started ttl ago or more; the load starts at the time then read. With a copy the call answers
  // from it; without, it waits for the load in flight; and with none to wait for it fails with
  // the error of the last load.
  lemma EnterIs(s: State, query: Query, t: Time, t': Time, ttl: Time)
    requires Inv(s, ttl) && Enabled(s, EnterStep(query, t, t'))
    ensures var (s', starts) := (Apply(s, EnterStep(query, t, t'), ttl),
                                 !InFlight(s) && (s.loads == [] || t - s.loads[|s.loads| - 1].start >= ttl));
            && s'.loads == (if starts then s.loads + [Load(t', Loading)] else s.loads)
            && s'.listed == s.listed && |s'.calls| == |s.calls| + 1 && s'.calls[..|s.calls|] == s.calls
            && s'.calls[|s.calls|].query == query
            && s'.calls[|s.calls|].stage
                 == (if LastLoaded(s.listed).Some? then Holding(LastLoaded(s.listed).value, |s.listed|)
                     else if InFlight(s) || starts then Waiting(|s'.loads| - 1)
                     else Failed(Some(FailureOf(s.listed))))
  {
    if LastLoaded(s.listed).None? && s.listed != [] {
      LoadedOrFailed(s.listed);
    }
    if s.f.loading.Some? {
      assert s.loads[s.f.loading.value].phase == Loading;
    }
  }

  // A call whose load has closed its channel reads the copy of the last successful load, or the
  // error of the last load.
  lemma WakeIs(s: State, c: nat, ttl: Time)
    requires Inv(s, ttl) && Enabled(s, Wake(c))
    ensures Apply(s, Wake(c), ttl).calls[c].stage
              == if LastLoaded(s.listed).Some? then Holding(LastLoaded(s.listed).value, |s.listed|)
                 else Failed(Some(FailureOf(s.listed)))
  {
    WakeIsTruthful(s, c, ttl);
    LoadedOrFailed(s.listed);
  }

  // A waiting call is never stuck: its load can commit whatever it listed, and then close its
  // channel, and then the call can wake.
  lemma WaitersCanWake(s: State, c: nat, result: Result<seq<Block>, Error>, ttl: Time)
    requires Inv(s, ttl) && c < |s.calls| && s.calls[c].stage.Waiting?
    requires result.Ok? ==> AllCanonical(result.value)
    ensures s.calls[c].stage.load < |s.loads|
    ensures match s.loads[s.calls[c].stage.load].phase
            case Loading => Enabled(s, CommitStep(result))
            case Committed => Enabled(s, CloseStep(s.calls[c].stage.load))
            case Closed => Enabled(s, Wake(c))
  {
    assert Truthful(s, s.calls[c]);
  }

  // A call other than the one that moves is as it was, and stays truthful.
  lemma CallIsTruthful(s: State, step: Step, ttl: Time, c: nat)
    requires Enabled(s, step) && Inv(s, ttl) && c < |Apply(s, step, ttl).calls|
    ensures Truthful(Apply(s, step, ttl), Apply(s, step, ttl).calls[c])
  {
    var s' := Apply(s, step, ttl);
    if c < |s.calls| && s'.calls[c] == s.calls[c] {
      TruthStays(s, s', s.calls[c]);
    } else {
      match step {
        case EnterStep(query, t, t') => EnterIsTruthful(s, query, t, t', ttl);
        case Wake(_) =>
          WakeIsTruthful(s, c, ttl);
          TruthStays(s, s', s'.calls[c]);
        case AnswerStep(_, now, reply) =>
          AnswerIsTruthful(s, c, now, reply, ttl);
          TruthStays(s, s', s'.calls[c]);
        case _ =>
      }
    }
  }

  lemma StepKeepsInv(s: State, step: Step, ttl: Time)
    requires Enabled(s, step) && Inv(s, ttl)
    ensures Inv(Apply(s, step, ttl), ttl)
  {
    OneInFlightIsKept(s, step, ttl);
    SpacedIsKept(s, step, ttl);
    CurrentIsKept(s, step, ttl);
    forall c | 0 <= c < |Apply(s, step, ttl).calls| ensures Truthful(Apply(s, step, ttl), Apply(s, step, ttl).calls[c]) {
      CallIsTruthful(s, step, ttl, c);
    }
  }

  ghost predicate Run(s: State, steps: seq<Step>, ttl: Time)
    decreases |steps|
  {
    steps != [] ==> Enabled(s, steps[0]) && Run(Apply(s, steps[0], ttl), steps[1..], ttl)
  }

  ghost function End(s: State, steps: seq<Step>, ttl: Time): State
    requires Run(s, steps, ttl)
    decreases |steps|
  {
    if steps == [] then s else End(Apply(s, steps[0], ttl), steps[1..], ttl)
  }

  // In every interleaving: at most one load is in flight, loads start at least ttl apart, the
  // copy is that of the last successful load, and every answer is one that was current when the
  // call read it.
  lemma {:induction false} EveryRunKeepsInv(s: State, steps: seq<Step>, ttl: Time)
    requires Inv(s, ttl) && Run(s, steps, ttl)
    ensures Inv(End(s, steps, ttl), ttl)
    decreases |steps|
  {
    if steps != [] {
      StepKeepsInv(s, steps[0], ttl);
      EveryRunKeepsInv(Apply(s, steps[0], ttl), steps[1..], ttl);
    }
  }

  ghost predicate AllListedCanonical(listed: seq<Result<seq<Block>, Error>>) {
    forall r | r in listed && r.Ok? :: AllCanonical(r.value)
  }

  lemma {:induction false} LastLoadedIsFiled(listed: seq<Result<seq<Block>, Error>>)
    requires AllListedCanonical(listed)
    ensures LastLoaded(listed).Some? ==> Filed(LastLoaded(listed).value)
  {
    if listed != [] {
      var last := listed[|listed| - 1];
      assert last in listed;
      match last {
        case Ok(blocks) => LatestIsFiled(blocks);
        case Err(_) => LastLoadedIsFiled(listed[..|listed| - 1]);
      }
    }
  }

  lemma {:induction false} RunListsCanonical(s: State, steps: seq<Step>, ttl: Time)
    requires AllListedCanonical(s.listed) && Run(s, steps, ttl)
    ensures AllListedCanonical(End(s, steps, ttl).listed)
    decreases |steps|
  {
    if steps != [] {
      RunListsCanonical(Apply(s, steps[0], ttl), steps[1..], ttl);
    }
  }

  // In every interleaving from a new cache: the invariants hold, and every answer is the one
  // answer, with expiry at the time of the call, from the blocks of the last successful load
  // that the call saw.
  lemma {:induction false} RunFromStart(steps: seq<Step>, ttl: Time)
    requires Run(START, steps, ttl)
    ensures Inv(End(START, steps, ttl), ttl)
    ensures var s := End(START, steps, ttl);
            forall c | 0 <= c < |s.calls| && s.calls[c].stage.Answered? ::
              TheAnswer(s.listed, s.calls[c].query, s.calls[c].stage)
  {
    EveryRunKeepsInv(START, steps, ttl);
    RunListsCanonical(START, steps, ttl);
    var s := End(START, steps, ttl);
    forall c | 0 <= c < |s.calls| && s.calls[c].stage.Answered?
      ensures TheAnswer(s.listed, s.calls[c].query, s.calls[c].stage)
    {
      assert Truthful(s, s.calls[c]);
      LastLoadedIsFiled(s.listed[..s.calls[c].stage.seen]);
    }
  }

  ghost predicate TheAnswer(listed: seq<Result<seq<Block>, Error>>, query: Query, stage: Stage)
    requires stage.Answered?
  {
    && stage.seen <= |listed| && LastLoaded(listed[..stage.seen]).Some?
    && var m := LastLoaded(listed[..stage.seen]).value;
       Filed(m) && Answers(m, query, stage.now, stage.reply)
  }

  // There is no other answer.
  lemma AnswerIsUnique(m: Blocks, query: Query, now: Time, reply: Reply, reply': Reply)
    requires Filed(m) && Answers(m, query, now, reply) && Answers(m, query, now, reply')
    ensures reply == reply'
  {
    match query {
      case CheckAddr(a) => NarrowestUnique(m, CanonicalAddr(a).value, now, reply.block, reply'.block);
      case ListAll => ListingUnique(m, now, reply.blocks, reply'.blocks);
    }
  }

  lemma CopyStays(s: State, step: Step, ttl: Time)
    requires Enabled(s, step) && s.f.copy.Some?
    ensures Apply(s, step, ttl).f.copy.Some?
    ensures Apply(s, step, ttl).f.copy
              == if step.CommitStep? && step.result.Ok? then Some(Latest(step.result.value)) else s.f.copy
  {
  }

  // The loads that a run commits.
  function Commits(steps: seq<Step>): seq<Result<seq<Block>, Error>> {
    if steps == [] then []
    else (if steps[0].CommitStep? then [steps[0].result] else []) + Commits(steps[1..])
  }

  lemma {:induction false} LastLoadedOf(first: Result<seq<Block>, Error>, rest: seq<Result<seq<Block>, Error>>)
    ensures LastLoaded([first] + rest)
              == if LastLoaded(rest).Some? then LastLoaded(rest) else LastLoaded([first])
    decreases |rest|
  {
    if rest == [] {
      assert [first] + rest == [first];
    } else {
      var n := |rest| - 1;
      assert ([first] + rest)[..n + 1] == [first] + rest[..n];
      LastLoadedOf(first, rest[..n]);
    }
  }

  // A loaded copy is never lost: over any run it is kept, or replaced by that of the last
  // successful load, whatever loads fail.
  lemma {:induction false} CopyIsNeverLost(s: State, steps: seq<Step>, ttl: Time)
    requires Run(s, steps, ttl) && s.f.copy.Some?
    ensures End(s, steps, ttl).f.copy
              == if LastLoaded(Commits(steps)).Some? then LastLoaded(Commits(steps)) else s.f.copy
    decreases |steps|
  {
    if steps != [] {
      var next := Apply(s, steps[0], ttl);
      CopyStays(s, steps[0], ttl);
      CopyIsNeverLost(next, steps[1..], ttl);
      if steps[0].CommitStep? {
        LastLoadedOf(steps[0].result, Commits(steps[1..]));
        assert [steps[0].result][..0] == [];
      } else {
        assert [] + Commits(steps[1..]) == Commits(steps[1..]);
      }
    }
  }

  // Once there is a copy no call waits.
  lemma CallsWithACopyNeverWait(s: State, query: Query, t: Time, t': Time, ttl: Time)
    requires Enabled(s, EnterStep(query, t, t')) && s.f.copy.Some?
    ensures Apply(s, EnterStep(query, t, t'), ttl).calls
              == s.calls + [Call(query, Holding(s.f.copy.value, |s.listed|))]
  {
  }
}
