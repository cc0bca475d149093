/** release/gcsrelease: what is published, and where. */
module Releases {
  type Bytes = seq<bv8>

  // A release version; the version string is opaque.
  datatype Version = Version(pkg: string, version: string)

  // How versions name bucket objects (names may collide), and the checksum of an object.
  datatype World = World(name: Version -> string, sha256: Bytes -> string)

  datatype UploadError = ReleaseExists | WriteFailed | ReadFailed | Truncated | CloseFailed | MetadataFailed

  // What one read of the release data returns.
  datatype End = More | Eof | Broken

  datatype Chunk = Chunk(data: Bytes, end: End)

  // Which of the store operations fail besides those that must: the metadata lookup, the n-th
  // write, the close of the writer, the metadata upload, and the clean-up delete. `tells` says
  // that a failing write reports the object that exists, if one does.
  datatype Faults = Faults(
    get: bool, write: nat, tells: bool, close: bool, metadata: bool, delete: bool)

  datatype Close = Created | Exists | Failed

  // The data up to the first end, and that end; the end of the chunks is a clean end of file.
  function Streamed(chunks: seq<Chunk>): (Bytes, End) {
    if chunks == [] then ([], Eof)
    else if chunks[0].end != More then (chunks[0].data, chunks[0].end)
    else
      var (rest, end) := Streamed(chunks[1..]);
      (chunks[0].data + rest, end)
  }

  // All the bytes of some chunks.
  function Joined(chunks: seq<Chunk>): Bytes {
    if chunks == [] then [] else Joined(chunks[..|chunks| - 1]) + chunks[|chunks| - 1].data
  }

  lemma {:induction false} JoinedFirst(chunk: Chunk, rest: seq<Chunk>)
    ensures Joined([chunk] + rest) == chunk.data + Joined(rest)
    decreases |rest|
  {
    if rest == [] {
      assert [chunk] + rest == [chunk] && [chunk][..0] == [];
      assert [] + chunk.data == chunk.data + [];
    } else {
      var n := |rest| - 1;
      assert ([chunk] + rest)[..n + 1] == [chunk] + rest[..n];
      JoinedFirst(chunk, rest[..n]);
      assert chunk.data + Joined(rest[..n]) + rest[n].data == chunk.data + (Joined(rest[..n]) + rest[n].data);
    }
  }

  // What is streamed is all the bytes of the chunks up to the first that ends the data, which may
  // hold some itself; without one it is all there is, ended cleanly.
  lemma {:induction false} StreamedIs(chunks: seq<Chunk>, k: nat)
    requires k <= |chunks| && forall j | 0 <= j < k :: chunks[j].end == More
    ensures k == |chunks| ==> Streamed(chunks) == (Joined(chunks), Eof)
    ensures k < |chunks| && chunks[k].end != More ==>
              Streamed(chunks) == (Joined(chunks[..k + 1]), chunks[k].end)
    decreases k
  {
    if k > 0 {
      StreamedIs(chunks[1..], k - 1);
      JoinedFirst(chunks[0], chunks[1..]);
      assert chunks == [chunks[0]] + chunks[1..];
      if k < |chunks| {
        JoinedFirst(chunks[0], chunks[1..][..k]);
        assert chunks[..k + 1] == [chunks[0]] + chunks[1..][..k];
      }
    } else if chunks != [] {
      assert chunks[..1] == [chunks[0]] + [];
      JoinedFirst(chunks[0], []);
      assert chunks[0].data + [] == chunks[0].data;
    }
  }

  // One more chunk, of data that did not end before it.
  lemma {:induction false} StreamedMore(whole: (Bytes, End), tail: seq<Chunk>, data: Bytes)
    requires tail != [] && whole == (data + Streamed(tail).0, Streamed(tail).1)
    ensures tail[0].end == More ==>
              whole == (data + tail[0].data + Streamed(tail[1..]).0, Streamed(tail[1..]).1)
    ensures tail[0].end != More ==> whole == (data + tail[0].data, tail[0].end)
  {
    if tail[0].end == More {
      var rest := Streamed(tail[1..]).0;
      assert data + (tail[0].data + rest) == data + tail[0].data + rest;
    }
  }
}

/** Every interleaving of uploads, each of which may stop anywhere. No delete of a release runs,
    and the metadata store keeps all of an upload or nothing. */
module PublishRuns {
  import opened Releases
  import opened Results

  // Where an upload is: reading its data, finalising it, recording its metadata, or removing the
  // object it created.
  datatype Stage =
    | Checking
    | Streaming(read: Bytes)
    | Finalising(read: Bytes)
    | Aborting
    | Recording(read: Bytes)
    | Removing
    | Published(read: Bytes)
    | Stopped

  datatype Upload = Upload(v: Version, size: nat, stage: Stage)

  // An object and the upload that created it; None for the objects there were before the run.
  datatype Object = Object(data: Bytes, creator: Option<nat>)

  datatype State = State(bucket: map<string, Object>, metadata: map<Version, string>, uploads: seq<Upload>)

  datatype Step =
    | Begin(v: Version, size: nat)
    | Check(i: nat)                       // the metadata store is not found to have the version
    | Read(i: nat, data: Bytes)           // one more chunk is read and written
    | ReachEof(i: nat)
    | Break(i: nat)                       // a read or a write failed
    | Finalise(i: nat)                    // the writer created the object
    | AbortCreates(i: nat, data: Bytes)   // closing an interrupted write created an object
    | Record(i: nat)                      // the metadata was kept
    | RecordFails(i: nat)
    | Remove(i: nat)                      // the object was deleted
    | Stop(i: nat)                        // the upload fails without effect, or crashes

  function Actor(step: Step): nat {
    if step.Begin? then 0 else step.i
  }

  predicate Enabled(s: State, step: Step, w: World) {
    if step.Begin? then true
    else if Actor(step) >= |s.uploads| then false
    else
      var u := s.uploads[Actor(step)];
      match step
      case Begin(_, _) => true
      case Check(_) => u.stage.Checking?
      case Read(_, _) => u.stage.Streaming?
      case ReachEof(_) => u.stage.Streaming?
      case Break(_) => u.stage.Streaming?
      case Finalise(_) => u.stage.Finalising? && w.name(u.v) !in s.bucket
      case AbortCreates(_, _) => u.stage.Aborting? && w.name(u.v) !in s.bucket
      case Record(_) => u.stage.Recording?
      case RecordFails(_) => u.stage.Recording?
      case Remove(_) => u.stage.Removing?
      case Stop(_) => !u.stage.Published?
  }

  function At(s: State, i: nat, stage: Stage): State
    requires i < |s.uploads|
  {
    s.(uploads := s.uploads[i := s.uploads[i].(stage := stage)])
  }

  function Apply(s: State, step: Step, w: World): State
    requires Enabled(s, step, w)
  {
    if step.Begin? then s.(uploads := s.uploads + [Upload(step.v, step.size, Checking)])
    else
      var i := Actor(step);
      var u := s.uploads[i];
      match step
      case Begin(_, _) => s
      case Check(_) => At(s, i, Streaming([]))
      case Read(_, data) => At(s, i, Streaming(u.stage.read + data))
      case ReachEof(_) =>
        At(s, i, if u.size > 0 && |u.stage.read| != u.size then Aborting else Finalising(u.stage.read))
      case Break(_) => At(s, i, Aborting)
      case Finalise(_) =>
        At(s.(bucket := s.bucket[w.name(u.v) := Object(u.stage.read, Some(i))]), i, Recording(u.stage.read))
      case AbortCreates(_, data) =>
        At(s.(bucket := s.bucket[w.name(u.v) := Object(data, Some(i))]), i, Removing)
      case Record(_) =>
        At(s.(metadata := s.metadata[u.v := w.sha256(u.stage.read)]), i, Published(u.stage.read))
      case RecordFails(_) => At(s, i, Removing)
      case Remove(_) => At(s.(bucket := s.bucket - {w.name(u.v)}), i, Stopped)
      case Stop(_) => At(s, i, Stopped)
  }

  // Recorded metadata means an object that hashes to it, of which no upload is still unsure.
  ghost predicate Backed(s: State, w: World) {
    forall v | v in s.metadata ::
      && w.name(v) in s.bucket
      && w.sha256(s.bucket[w.name(v)].data) == s.metadata[v]
      && Settled(s, s.bucket[w.name(v)])
  }

  ghost predicate Settled(s: State, o: Object) {
    o.creator.Some? ==> o.creator.value < |s.uploads| && s.uploads[o.creator.value].stage.Published?
  }

  // An upload that is past creating its object still owns it.
  ghost predicate Owns(s: State, i: nat, w: World)
    requires i < |s.uploads|
  {
    var u := s.uploads[i];
    match u.stage
    case Recording(read) => Created(s, i, w) && s.bucket[w.name(u.v)].data == read && FullSize(u, read)
    case Removing => Created(s, i, w)
    case Published(read) =>
      && Created(s, i, w) && s.bucket[w.name(u.v)].data == read && FullSize(u, read)
      && u.v in s.metadata
    case Finalising(read) => FullSize(u, read)
    case _ => true
  }

  ghost predicate Created(s: State, i: nat, w: World)
    requires i < |s.uploads|
  {
    var name := w.name(s.uploads[i].v);
    name in s.bucket && s.bucket[name].creator == Some(i)
  }

  ghost predicate FullSize(u: Upload, read: Bytes) {
    u.size > 0 ==> |read| == u.size
  }

  // Creators are uploads that have begun.
  ghost predicate KnownCreators(s: State) {
    forall n | n in s.bucket && s.bucket[n].creator.Some? :: s.bucket[n].creator.value < |s.uploads|
  }

  ghost predicate Inv(s: State, w: World) {
    Backed(s, w) && KnownCreators(s) && forall i | 0 <= i < |s.uploads| :: Owns(s, i, w)
  }

  // A step changes the stage of its actor only, creates an object only where there is none, and
  // removes only an object of its actor.
  lemma StepIsLocal(s: State, step: Step, w: World)
    requires Inv(s, w) && Enabled(s, step, w)
    ensures var s' := Apply(s, step, w);
            && |s.uploads| <= |s'.uploads|
            && (forall i | 0 <= i < |s.uploads| && (step.Begin? || i != Actor(step)) :: s'.uploads[i] == s.uploads[i])
            && (forall i | 0 <= i < |s.uploads| :: s'.uploads[i].v == s.uploads[i].v
                                                   && s'.uploads[i].size == s.uploads[i].size)
    ensures forall n | n in s.bucket && n in Apply(s, step, w).bucket ::
              Apply(s, step, w).bucket[n] == s.bucket[n]
    ensures forall n | n in s.bucket && n !in Apply(s, step, w).bucket ::
              step.Remove? && s.bucket[n].creator == Some(Actor(step))
  {
    if step.Remove? {
      assert Owns(s, Actor(step), w);
    }
  }

  lemma StepKeepsBacked(s: State, step: Step, w: World)
    requires Inv(s, w) && Enabled(s, step, w)
    ensures Backed(Apply(s, step, w), w)
  {
    var s' := Apply(s, step, w);
    StepIsLocal(s, step, w);
    if !step.Begin? {
      assert Owns(s, Actor(step), w);
    }
    forall v | v in s'.metadata
      ensures w.name(v) in s'.bucket && w.sha256(s'.bucket[w.name(v)].data) == s'.metadata[v]
              && Settled(s', s'.bucket[w.name(v)])
    {
      if v in s.metadata {
        assert w.name(v) in s.bucket && Settled(s, s.bucket[w.name(v)]);
      }
    }
  }

  lemma StepKeepsOwns(s: State, step: Step, w: World, i: nat)
    requires Inv(s, w) && Enabled(s, step, w) && i < |Apply(s, step, w).uploads|
    ensures Owns(Apply(s, step, w), i, w)
  {
    var s' := Apply(s, step, w);
    StepIsLocal(s, step, w);
    if i < |s.uploads| {
      assert Owns(s, i, w);
      if !step.Begin? {
        assert Owns(s, Actor(step), w);
      }
    }
  }

  lemma StepKeepsInv(s: State, step: Step, w: World)
    requires Inv(s, w) && Enabled(s, step, w)
    ensures Inv(Apply(s, step, w), w)
  {
    StepKeepsBacked(s, step, w);
    forall i | 0 <= i < |Apply(s, step, w).uploads| ensures Owns(Apply(s, step, w), i, w) {
      StepKeepsOwns(s, step, w, i);
    }
  }

  // A published version stays: its metadata does not change, and its object keeps its bytes.
  ghost predicate Keeps(s: State, s': State, w: World) {
    forall v | v in s.metadata && w.name(v) in s.bucket ::
      && v in s'.metadata && s'.metadata[v] == s.metadata[v]
      && w.name(v) in s'.bucket && s'.bucket[w.name(v)] == s.bucket[w.name(v)]
  }

  lemma StepKeepsPublished(s: State, step: Step, w: World)
    requires Inv(s, w) && Enabled(s, step, w)
    ensures Keeps(s, Apply(s, step, w), w)
  {
    StepIsLocal(s, step, w);
    if !step.Begin? {
      assert Owns(s, Actor(step), w);
    }
    forall v | v in s.metadata ensures Settled(s, s.bucket[w.name(v)]) {
    }
  }

  ghost predicate Run(s: State, steps: seq<Step>, w: World)
    decreases |steps|
  {
    steps != [] ==> Enabled(s, steps[0], w) && Run(Apply(s, steps[0], w), steps[1..], w)
  }

  ghost function EndState(s: State, steps: seq<Step>, w: World): State
    requires Run(s, steps, w)
    decreases |steps|
  {
    if steps == [] then s else EndState(Apply(s, steps[0], w), steps[1..], w)
  }

  // Over any interleaving: metadata always has its object, with the recorded checksum, and what
  // is published once stays as it is.
  lemma {:induction false} RunKeepsPublished(s: State, steps: seq<Step>, w: World)
    requires Inv(s, w) && Run(s, steps, w)
    ensures Inv(EndState(s, steps, w), w) && Keeps(s, EndState(s, steps, w), w)
    decreases |steps|
  {
    if steps != [] {
      var next := Apply(s, steps[0], w);
      StepKeepsInv(s, steps[0], w);
      StepKeepsPublished(s, steps[0], w);
      RunKeepsPublished(next, steps[1..], w);
      forall v | v in s.metadata ensures w.name(v) in s.bucket {
      }
    }
  }

  // A run may start from any stores in which metadata has its objects.
  lemma InitiallyInv(bucket: map<string, Bytes>, metadata: map<Version, string>, w: World)
    requires forall v | v in metadata :: w.name(v) in bucket && w.sha256(bucket[w.name(v)]) == metadata[v]
    ensures Inv(StoresOf(bucket, metadata), w)
  {
  }

  // An upload that reports success has published all it read, and as much as was announced.
  lemma PublishedIsComplete(s: State, i: nat, w: World)
    requires Inv(s, w) && i < |s.uploads| && s.uploads[i].stage.Published?
    ensures var (u, read) := (s.uploads[i], s.uploads[i].stage.read);
            && u.v in s.metadata && s.metadata[u.v] == w.sha256(read)
            && w.name(u.v) in s.bucket && s.bucket[w.name(u.v)].data == read
            && (u.size > 0 ==> |read| == u.size)
  {
    assert Owns(s, i, w);
  }

  // Two uploads never both publish one version.
  lemma OnePublisher(s: State, i: nat, j: nat, w: World)
    requires Inv(s, w) && i < |s.uploads| && j < |s.uploads|
    requires s.uploads[i].stage.Published? && s.uploads[j].stage.Published?
    requires w.name(s.uploads[i].v) == w.name(s.uploads[j].v)
    ensures i == j
  {
    assert Owns(s, i, w) && Owns(s, j, w);
  }

  // ----- runs from given stores

  function StoresOf(bucket: map<string, Bytes>, metadata: map<Version, string>): State {
    State(map n | n in bucket :: Object(bucket[n], None), metadata, [])
  }

  // The stores of a state, without what it knows of the uploads.
  ghost predicate Shows(s: State, bucket: map<string, Bytes>, metadata: map<Version, string>) {
    && s.metadata == metadata && s.bucket.Keys == bucket.Keys
    && forall n | n in bucket :: s.bucket[n].data == bucket[n]
  }

  // Objects that no upload of the run created.
  ghost predicate KeepsOlder(s: State, s': State) {
    forall n | n in s.bucket && s.bucket[n].creator.None? :: n in s'.bucket && s'.bucket[n] == s.bucket[n]
  }

  lemma {:induction false} RunKeepsOlder(s: State, steps: seq<Step>, w: World)
    requires Inv(s, w) && Run(s, steps, w)
    ensures KeepsOlder(s, EndState(s, steps, w))
    decreases |steps|
  {
    if steps != [] {
      StepIsLocal(s, steps[0], w);
      StepKeepsInv(s, steps[0], w);
      RunKeepsOlder(Apply(s, steps[0], w), steps[1..], w);
    }
  }

  // From any stores in which metadata has its objects, and over any interleaving of uploads that
  // may stop anywhere: the bytes of every object that was there and the metadata of every version
  // stay, and all metadata, old and new, has its object with the recorded checksum.
  lemma {:induction false} RunFromStores(
    bucket: map<string, Bytes>, metadata: map<Version, string>, steps: seq<Step>, w: World)
    requires forall v | v in metadata :: w.name(v) in bucket && w.sha256(bucket[w.name(v)]) == metadata[v]
    requires Run(StoresOf(bucket, metadata), steps, w)
    ensures var end := EndState(StoresOf(bucket, metadata), steps, w);
            && (forall n | n in bucket :: n in end.bucket && end.bucket[n].data == bucket[n])
            && (forall v | v in metadata :: v in end.metadata && end.metadata[v] == metadata[v])
            && (forall v | v in end.metadata ::
                  w.name(v) in end.bucket && w.sha256(end.bucket[w.name(v)].data) == end.metadata[v])
  {
    var s := StoresOf(bucket, metadata);
    InitiallyInv(bucket, metadata, w);
    RunKeepsPublished(s, steps, w);
    RunKeepsOlder(s, steps, w);
    var end := EndState(s, steps, w);
    forall n | n in bucket ensures n in end.bucket && end.bucket[n].data == bucket[n] {
      assert s.bucket[n].creator.None?;
    }
    forall v | v in metadata ensures w.name(v) in s.bucket {
    }
  }

  // ----- reachability

  ghost predicate Reaches(s: State, t: State, w: World) {
    exists steps :: Run(s, steps, w) && EndState(s, steps, w) == t
  }

  lemma ReachesItself(s: State, w: World)
    ensures Reaches(s, s, w)
  {
    assert Run(s, [], w) && EndState(s, [], w) == s;
  }

  lemma {:induction false} RunThen(s: State, steps: seq<Step>, more: seq<Step>, w: World)
    requires Run(s, steps, w) && Run(EndState(s, steps, w), more, w)
    ensures Run(s, steps + more, w)
    ensures EndState(s, steps + more, w) == EndState(EndState(s, steps, w), more, w)
    decreases |steps|
  {
    if steps == [] {
      assert [] + more == more;
    } else {
      assert (steps + more)[1..] == steps[1..] + more;
      RunThen(Apply(s, steps[0], w), steps[1..], more, w);
    }
  }

  lemma ReachesOn(s: State, t: State, u: State, w: World)
    requires Reaches(s, t, w) && Reaches(t, u, w)
    ensures Reaches(s, u, w)
  {
    var steps :| Run(s, steps, w) && EndState(s, steps, w) == t;
    var more :| Run(t, more, w) && EndState(t, more, w) == u;
    RunThen(s, steps, more, w);
  }

  lemma {:induction false} RunOfOne(s: State, step: Step, w: World)
    requires Enabled(s, step, w)
    ensures Run(s, [step], w) && EndState(s, [step], w) == Apply(s, step, w)
  {
    var next := Apply(s, step, w);
    assert [step][1..] == [];
    assert Run(next, [], w) && EndState(next, [], w) == next;
  }

  lemma ReachesNext(s: State, t: State, step: Step, w: World)
    requires Reaches(s, t, w) && Enabled(t, step, w)
    ensures Reaches(s, Apply(t, step, w), w)
  {
    RunOfOne(t, step, w);
    ReachesOn(s, t, Apply(t, step, w), w);
  }
}

/** release/gcsrelease/manager.go: publishing a release over a bucket and a metadata store.

    Each method also follows the uploads' steps: from a state s that shows the stores it reaches
    a state t that shows them afterwards. */
module Publishing {
  import opened PublishRuns
  import opened Releases
  import opened Results

  ghost predicate IsAt(s: State, i: nat, stage: Stage) {
    i < |s.uploads| && s.uploads[i].stage == stage
  }

  // From s to t upload i ends, and no other upload moves.
  ghost predicate Ended(s: State, t: State, i: nat, published: bool) {
    && i < |s.uploads| && |t.uploads| == |s.uploads|
    && (forall j | 0 <= j < |s.uploads| && j != i :: t.uploads[j] == s.uploads[j])
    && (if published then t.uploads[i].stage.Published? else t.uploads[i].stage.Stopped?)
  }

  lemma FinaliseShows(s: State, i: nat, name: string, data: Bytes,
                      bucket: map<string, Bytes>, metadata: map<Version, string>, w: World)
    requires Shows(s, bucket, metadata) && IsAt(s, i, Finalising(data))
    requires w.name(s.uploads[i].v) == name && name !in bucket
    ensures Enabled(s, Finalise(i), w)
    ensures Shows(Apply(s, Finalise(i), w), bucket[name := data], metadata)
    ensures Apply(s, Finalise(i), w).uploads == At(s, i, Recording(data)).uploads
  {
  }

  lemma RecordShows(s: State, i: nat, data: Bytes,
                    bucket: map<string, Bytes>, metadata: map<Version, string>, w: World)
    requires Shows(s, bucket, metadata) && IsAt(s, i, Recording(data))
    ensures Enabled(s, Record(i), w)
    ensures Shows(Apply(s, Record(i), w), bucket, metadata[s.uploads[i].v := w.sha256(data)])
    ensures Apply(s, Record(i), w).uploads == At(s, i, Published(data)).uploads
  {
  }

  // How streaming failed; a cut stream looks like a clean end of file.
  function Failure(data: Bytes, end: End, written: bool, size: nat, told: bool): Option<UploadError> {
    if !written then Some(if told then ReleaseExists else WriteFailed)
    else if end == Broken then Some(ReadFailed)
    else if size > 0 && |data| != size then Some(Truncated)
    else None
  }

  // What a transfer does to the stores, and what it reports.
  ghost predicate Transfers(
    name: string, sha256: Bytes -> string, chunks: seq<Chunk>, size: nat, faults: Faults,
    bucket0: map<string, Bytes>, metadata0: map<Version, string>, v: Version,
    bucket1: map<string, Bytes>, metadata1: map<Version, string>, r: Result<string, UploadError>)
  {
    var (data, end) := Streamed(chunks);
    var whole := Whole(chunks, size, faults);
    // Success publishes all of the data, under its own checksum, where nothing was.
    && (r.Ok? ==>
          && end == Eof && (size == 0 || |data| == size) && name !in bucket0
          && r.value == sha256(data)
          && bucket1 == bucket0[name := data] && metadata1 == metadata0[v := r.value])
    // Failure publishes nothing; it may leave an orphan with some of the data where nothing
    // was, when the clean-up fails too.
    && (r.Err? ==> metadata1 == metadata0)
    && (r.Err? ==> bucket1 == bucket0
                   || (faults.delete && name !in bucket0 && name in bucket1 && bucket1[name] <= data
                       && bucket1 == bucket0[name := bucket1[name]]))
    // A failed read and a cut stream are told apart.
    && (|chunks| <= faults.write && end == Broken ==> r == Err(ReadFailed))
    && (|chunks| <= faults.write && end == Eof && size > 0 && |data| != size ==> r == Err(Truncated))
    // An existing object is reported and left untouched.
    && (name in bucket0 ==> r.Err? && bucket1 == bucket0)
    && (r == Err(ReleaseExists) ==> name in bucket0)
    && (name in bucket0 && whole && !faults.close ==> r == Err(ReleaseExists))
    // Nothing else fails.
    && (name !in bucket0 && whole && !faults.close && !faults.metadata ==> r.Ok?)
  }

  // All of the data can be written, and is as long as announced.
  predicate Whole(chunks: seq<Chunk>, size: nat, faults: Faults) {
    |chunks| <= faults.write && Streamed(chunks).1 == Eof && (size == 0 || |Streamed(chunks).0| == size)
  }

  class Manager {
    const world: World
    var bucket: map<string, Bytes>
    var metadata: map<Version, string>

    constructor (world: World)
      ensures this.world == world && bucket == map[] && metadata == map[]
    {
      this.world := world;
      bucket, metadata := map[], map[];
    }

    // Finalises a create-only write: fails when the object exists, and leaves it untouched.
    method CloseWriter(name: string, data: Bytes, fails: bool) returns (r: Close)
      modifies this`bucket
      ensures r == if fails then Failed else if name in old(bucket) then Exists else Created
      ensures bucket == if r == Created then old(bucket)[name := data] else old(bucket)
    {
      if fails {
        return Failed;
      }
      if name in bucket {
        return Exists;
      }
      bucket := bucket[name := data];
      return Created;
    }

    method ForceDelete(name: string, fails: bool, ghost s: State, ghost t0: State, ghost i: nat)
      returns (ghost t: State)
      requires Shows(t0, bucket, metadata) && IsAt(t0, i, Removing) && world.name(t0.uploads[i].v) == name
      requires Reaches(s, t0, world)
      modifies this`bucket
      ensures bucket == if fails then old(bucket) else old(bucket) - {name}
      ensures Shows(t, bucket, metadata) && Reaches(s, t, world) && Ended(t0, t, i, false)
    {
      ghost var step := if fails then Stop(i) else Remove(i);
      ReachesNext(s, t0, step, world);
      t := Apply(t0, step, world);
      if !fails {
        bucket := bucket - {name};
      }
    }

    // Finalises an interrupted write and removes the object if that created it.
    method AbortUpload(name: string, data: Bytes, faults: Faults, ghost s: State, ghost i: nat)
      returns (ghost t: State)
      requires Shows(s, bucket, metadata) && IsAt(s, i, Aborting) && world.name(s.uploads[i].v) == name
      modifies this`bucket
      ensures Shows(t, bucket, metadata) && Reaches(s, t, world) && Ended(s, t, i, false)
      ensures bucket == if faults.delete && !faults.close && name !in old(bucket)
                        then old(bucket)[name := data] else old(bucket)
    {
      ReachesItself(s, world);
      var closed := CloseWriter(name, data, faults.close);
      if closed != Created {
        ReachesNext(s, s, Stop(i), world);
        t := Apply(s, Stop(i), world);
        return;
      }
      ReachesNext(s, s, AbortCreates(i, data), world);
      t := Apply(s, AbortCreates(i, data), world);
      t := ForceDelete(name, faults.delete, s, t, i);
      assert !faults.delete ==> bucket == old(bucket);
    }

    // Streams the release data, read by read, until its end or a failed write.
    method Stream(chunks: seq<Chunk>, failingWrite: nat, ghost s: State, ghost i: nat)
      returns (data: Bytes, end: End, written: bool, ghost t: State)
      requires IsAt(s, i, Streaming([]))
      ensures data <= Streamed(chunks).0
      ensures Reaches(s, t, world) && t == At(s, i, Streaming(data))
      ensures written ==> (data, end) == Streamed(chunks) && end != More
      ensures |chunks| <= failingWrite ==> written
      ensures !written ==> end == More
    {
      data, end, written, t := [], More, true, s;
      ReachesItself(s, world);
      assert chunks[0..] == chunks && [] + Streamed(chunks).0 == Streamed(chunks).0;
      assert At(s, i, Streaming([])) == s;
      for c := 0 to |chunks|
        invariant Streamed(chunks) == (data + Streamed(chunks[c..]).0, Streamed(chunks[c..]).1)
        invariant written && end == More
        invariant Reaches(s, t, world) && t == At(s, i, Streaming(data))
      {
        var chunk := chunks[c];
        StreamedMore(Streamed(chunks), chunks[c..], data);
        assert chunks[c..][1..] == chunks[c + 1..];
        assert data + [] == data;
        if chunk.data != [] {
          if c == failingWrite {
            written := false;
            return;
          }
          ReachesNext(s, t, Read(i, chunk.data), world);
          t := Apply(t, Read(i, chunk.data), world);
          data := data + chunk.data;
        }
        if chunk.end != More {
          end := chunk.end;
          return;
        }
      }
      end := Eof;
      assert data + [] == data;
    }

    // Finalises the object, then records its checksum; without that the object is removed.
    method Commit(v: Version, name: string, data: Bytes, faults: Faults, ghost s: State, ghost t0: State,
                  ghost i: nat)
      returns (r: Result<string, UploadError>, ghost t: State)
      requires Shows(t0, bucket, metadata) && Reaches(s, t0, world) && IsAt(t0, i, Streaming(data))
      requires t0.uploads[i].v == v && world.name(v) == name
      requires t0.uploads[i].size > 0 ==> t0.uploads[i].size == |data|
      modifies this`bucket, this`metadata
      ensures Shows(t, bucket, metadata) && Reaches(s, t, world) && Ended(t0, t, i, r.Ok?)
      ensures r == if faults.close then Err(CloseFailed)
                   else if name in old(bucket) then Err(ReleaseExists)
                   else if faults.metadata then Err(MetadataFailed) else Ok(world.sha256(data))
      ensures metadata == if r.Ok? then old(metadata)[v := world.sha256(data)] else old(metadata)
      ensures bucket == if r.Ok? || (r == Err(MetadataFailed) && faults.delete)
                        then old(bucket)[name := data] else old(bucket)
    {
      ghost var t1 := At(t0, i, Finalising(data));
      ReachesNext(s, t0, ReachEof(i), world);
      var closed := CloseWriter(name, data, faults.close);
      if closed != Created {
        ReachesNext(s, t1, Stop(i), world);
        return Err(if closed == Exists then ReleaseExists else CloseFailed), At(t1, i, Stopped);
      }
      FinaliseShows(t1, i, name, data, old(bucket), metadata, world);
      ReachesNext(s, t1, Finalise(i), world);
      r, t := Record(v, name, data, faults, s, Apply(t1, Finalise(i), world), i);
      assert r.Err? && !faults.delete ==> bucket == old(bucket);
    }

    // Records the checksum of a new object, or removes the object.
    method Record(v: Version, name: string, data: Bytes, faults: Faults, ghost s: State, ghost t0: State,
                  ghost i: nat)
      returns (r: Result<string, UploadError>, ghost t: State)
      requires Shows(t0, bucket, metadata) && Reaches(s, t0, world) && IsAt(t0, i, Recording(data))
      requires t0.uploads[i].v == v && world.name(v) == name
      modifies this`bucket, this`metadata
      ensures Shows(t, bucket, metadata) && Reaches(s, t, world) && Ended(t0, t, i, r.Ok?)
      ensures r == if faults.metadata then Err(MetadataFailed) else Ok(world.sha256(data))
      ensures metadata == if r.Ok? then old(metadata)[v := world.sha256(data)] else old(metadata)
      ensures bucket == if r.Err? && !faults.delete then old(bucket) - {name} else old(bucket)
    {
      var checksum := world.sha256(data);
      if faults.metadata {
        ReachesNext(s, t0, RecordFails(i), world);
        t := ForceDelete(name, faults.delete, s, At(t0, i, Removing), i);
        return Err(MetadataFailed), t;
      }
      RecordShows(t0, i, data, bucket, metadata, world);
      ReachesNext(s, t0, PublishRuns.Record(i), world);
      metadata := metadata[v := checksum];
      return Ok(checksum), Apply(t0, PublishRuns.Record(i), world);
    }

    // Streams the data and publishes it, or cleans up after an interrupted write.
    method Transfer(v: Version, chunks: seq<Chunk>, size: nat, faults: Faults, ghost s: State, ghost i: nat)
      returns (r: Result<string, UploadError>, ghost t: State)
      requires Shows(s, bucket, metadata) && IsAt(s, i, Streaming([]))
      requires s.uploads[i].v == v && s.uploads[i].size == size
      modifies this`bucket, this`metadata
      ensures Transfers(world.name(v), world.sha256, chunks, size, faults, old(bucket), old(metadata), v,
                        bucket, metadata, r)
      ensures Shows(t, bucket, metadata) && Reaches(s, t, world) && Ended(s, t, i, r.Ok?)
    {
      var name := world.name(v);
      var data, end, written;
      data, end, written, t := Stream(chunks, faults.write, s, i);
      var failure := Failure(data, end, written, size, faults.tells && name in bucket);
      if failure.Some? {
        t := Abandon(name, data, faults, s, t, if end == Eof then ReachEof(i) else Break(i), i);
        return Err(failure.value), t;
      }
      r, t := Commit(v, name, data, faults, s, t, i);
    }

    // Gives an upload up: at a failed write or read, or at a short end of file.
    method Abandon(name: string, data: Bytes, faults: Faults, ghost s: State, ghost t0: State,
                   ghost step: Step, ghost i: nat)
      returns (ghost t: State)
      requires Shows(t0, bucket, metadata) && Reaches(s, t0, world)
      requires IsAt(t0, i, Streaming(data)) && world.name(t0.uploads[i].v) == name
      requires step == Break(i) || (step == ReachEof(i) && 0 < t0.uploads[i].size != |data|)
      modifies this`bucket
      ensures bucket == if faults.delete && !faults.close && name !in old(bucket)
                        then old(bucket)[name := data] else old(bucket)
      ensures Shows(t, bucket, metadata) && Reaches(s, t, world) && Ended(t0, t, i, false)
    {
      ReachesNext(s, t0, step, world);
      ghost var t1 := Apply(t0, step, world);
      t := AbortUpload(name, data, faults, t1, i);
      ReachesOn(s, t1, t, world);
    }

    /** Publishes a version with the given data; size is what the reader reports, 0 if nothing. */
    method Upload(v: Version, chunks: seq<Chunk>, size: nat, faults: Faults, ghost s: State)
      returns (r: Result<string, UploadError>, ghost t: State)
      requires Shows(s, bucket, metadata)
      modifies this`bucket, this`metadata
      // A published version is reported; otherwise the data is transferred.
      ensures if v in old(metadata) && !faults.get
              then r == Err(ReleaseExists) && bucket == old(bucket) && metadata == old(metadata)
              else Transfers(world.name(v), world.sha256, chunks, size, faults, old(bucket), old(metadata), v,
                        bucket, metadata, r)
      // The call is a run of the steps of one upload, from any state of the others.
      ensures Shows(t, bucket, metadata) && Reaches(s, t, world)
      ensures Ended(Apply(s, Begin(v, size), world), t, |s.uploads|, r.Ok?)
    {
      ghost var i, t1, t2 := |s.uploads|, Apply(s, Begin(v, size), world), s;
      ReachesItself(s, world);
      ReachesNext(s, s, Begin(v, size), world);
      if v in metadata && !faults.get {
        ReachesNext(s, t1, Stop(i), world);
        return Err(ReleaseExists), Apply(t1, Stop(i), world);
      }
      ReachesNext(s, t1, Check(i), world);
      t2 := Apply(t1, Check(i), world);
      r, t := Transfer(v, chunks, size, faults, t2, i);
      ReachesOn(s, t2, t, world);
    }
  }
}
