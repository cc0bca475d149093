/** What a blocklist is, whatever keeps it: a map from canonical prefix to block, with lapsed
    blocks hidden (ipblock/ipblock.go). */
module Blocklist {
  import opened BlockSets
  import opened Prefixes
  import opened Results

  // Writer.Block on the map.
  function Put(m: Blocks, b: Block, now: Time): (Blocks, Outcome) {
    match Prepare(b, now)
    case Err(e) => (m, e)
    case Ok(prepared) => (m[prepared.prefix := prepared], Done)
  }

  // Writer.Unblock on the map.
  function Lift(m: Blocks, p: Prefix, now: Time): (Blocks, Outcome) {
    match Canonical(p)
    case None => (m, BadPrefix)
    case Some(c) =>
      if c !in m then (m, NotBlocked)
      else (m - {c}, if Active(m[c], now) then Done else NotBlocked)
  }

  // Reader.Check on the map.
  ghost predicate Checks(m: Blocks, a: Addr, now: Time, r: Option<Option<Block>>) {
    match CanonicalAddr(a)
    case None => r == None
    case Some(c) => r.Some? && Narrowest(m, c, now, r.value)
  }

  // A map has one answer for an address and one list, so that two lists that keep the same map
  // cannot be told apart.
  lemma OneAnswer(m: Blocks, a: Addr, now: Time, r: Option<Option<Block>>, r': Option<Option<Block>>,
                  s: seq<Block>, s': seq<Block>)
    requires Filed(m) && Checks(m, a, now, r) && Checks(m, a, now, r')
    requires Listing(m, now, s) && Listing(m, now, s')
    ensures r == r' && s == s'
  {
    ListingUnique(m, now, s, s');
    if CanonicalAddr(a).Some? {
      NarrowestUnique(m, CanonicalAddr(a).value, now, r.value, r'.value);
    }
  }

  datatype Op = BlockOp(b: Block, now: Time) | UnblockOp(p: Prefix, now: Time)

  function Apply(m: Blocks, op: Op): (Blocks, Outcome) {
    match op
    case BlockOp(b, now) => Put(m, b, now)
    case UnblockOp(p, now) => Lift(m, p, now)
  }

  function ApplyAll(m: Blocks, ops: seq<Op>): Blocks {
    if ops == [] then m else Apply(ApplyAll(m, ops[..|ops| - 1]), ops[|ops| - 1]).0
  }

  lemma PrepareKeepsPrefix(b: Block, now: Time)
    requires Prepare(b, now).Ok?
    ensures Canonical(b.prefix) == Some(Prepare(b, now).value.prefix)
    ensures IsCanonical(Prepare(b, now).value.prefix)
    ensures now > 0 ==> Prepare(b, now).value.blockedAt != 0
    ensures Active(Prepare(b, now).value, now)
  {
    CanonicalIsIdempotent(b.prefix);
  }

  lemma ApplyKeepsFiled(m: Blocks, op: Op)
    requires Filed(m)
    ensures Filed(Apply(m, op).0)
  {
    if op.BlockOp? && Prepare(op.b, op.now).Ok? {
      PrepareKeepsPrefix(op.b, op.now);
    }
  }

  lemma {:induction false} ApplyAllKeepsFiled(m: Blocks, ops: seq<Op>)
    requires Filed(m)
    ensures Filed(ApplyAll(m, ops))
  {
    if ops != [] {
      ApplyAllKeepsFiled(m, ops[..|ops| - 1]);
      ApplyKeepsFiled(ApplyAll(m, ops[..|ops| - 1]), ops[|ops| - 1]);
    }
  }

  // A block is set exactly if its prefix is valid and it does not lapse at once; it is stored
  // under its canonical prefix as it was given, with the time of the call if it had none.
  lemma PutMeans(m: Blocks, b: Block, now: Time)
    ensures Put(m, b, now).1
              == if !IsValid(b.prefix) then BadPrefix
                 else if b.expiresAt != 0 && b.expiresAt <= now then AlreadyExpired else Done
    ensures Put(m, b, now).1 != Done ==> Put(m, b, now).0 == m
    ensures Put(m, b, now).1 == Done ==>
              var p := Canonical(b.prefix).value;
              Put(m, b, now).0 == m[p := Block(p, b.reason, b.blockedBy,
                                               if b.blockedAt == 0 then now else b.blockedAt, b.expiresAt)]
  {
  }

  // Lifting removes exactly the block on the canonical prefix, and reports whether it was in force.
  lemma LiftMeans(m: Blocks, p: Prefix, now: Time)
    ensures !IsValid(p) ==> Lift(m, p, now) == (m, BadPrefix)
    ensures IsValid(p) ==>
              var c := Canonical(p).value;
              && Lift(m, p, now).0 == m - {c}
              && Lift(m, p, now).1
                   == (if c in m && (m[c].expiresAt == 0 || now < m[c].expiresAt) then Done else NotBlocked)
  {
    if IsValid(p) {
      var c := Canonical(p).value;
      assert c !in m ==> m - {c} == m;
    }
  }

  // From its expiry on a block is neither found nor listed.
  lemma LapsedIsHidden(m: Blocks, b: Block, a: Addr, now: Time, r: Option<Option<Block>>, s: seq<Block>)
    requires b.expiresAt != 0 && b.expiresAt <= now
    requires Checks(m, a, now, r) && Listing(m, now, s)
    ensures r != Some(Some(b)) && b !in s
  {
  }

  // Until then, and for ever without one, it is listed, and found or hidden by a narrower one.
  lemma InForceIsShown(m: Blocks, b: Block, a: Addr, now: Time, r: Option<Block>, s: seq<Block>)
    requires b.prefix in m && m[b.prefix] == b && (b.expiresAt == 0 || now < b.expiresAt)
    requires IsCanonicalAddr(a) && Contains(b.prefix, a)
    requires Checks(m, a, now, Some(r)) && Listing(m, now, s)
    ensures b in s && r.Some? && r.value.prefix.length >= b.prefix.length
  {
    assert Matches(m, a, now, m[b.prefix]);
  }

  // Whether op i sets or lifts the block on p.
  predicate Touches(op: Op, p: Prefix) {
    match op
    case BlockOp(b, now) => Prepare(b, now).Ok? && Canonical(b.prefix) == Some(p)
    case UnblockOp(q, _) => Canonical(q) == Some(p)
  }

  // After any run a prefix holds the block of the last operation that touched it, if that was
  // a block; blocks on other prefixes, wider or narrower, play no part.
  lemma {:induction false} LastOperationDecides(ops: seq<Op>, p: Prefix)
    ensures p in ApplyAll(map[], ops) <==>
            exists i :: 0 <= i < |ops| && LastTouch(ops, i, p) && ops[i].BlockOp?
    ensures forall i | 0 <= i < |ops| && LastTouch(ops, i, p) && ops[i].BlockOp? ::
              p in ApplyAll(map[], ops) && Ok(ApplyAll(map[], ops)[p]) == Prepare(ops[i].b, ops[i].now)
  {
    if ops != [] {
      var n := |ops| - 1;
      LastOperationDecides(ops[..n], p);
      if Touches(ops[n], p) {
        assert LastTouch(ops, n, p);
        forall i | 0 <= i < |ops| && LastTouch(ops, i, p) ensures i == n {
        }
        if ops[n].BlockOp? {
          PrepareKeepsPrefix(ops[n].b, ops[n].now);
        }
      } else {
        forall i | 0 <= i < n ensures LastTouch(ops, i, p) <==> LastTouch(ops[..n], i, p) {
          LastTouchExtends(ops, i, p);
        }
        if ops[n].BlockOp? && Prepare(ops[n].b, ops[n].now).Ok? {
          PrepareKeepsPrefix(ops[n].b, ops[n].now);
        }
        if p in ApplyAll(map[], ops[..n]) {
          var i :| 0 <= i < n && LastTouch(ops[..n], i, p) && ops[..n][i].BlockOp?;
          assert LastTouch(ops, i, p) && ops[i].BlockOp?;
        }
        if i :| 0 <= i < |ops| && LastTouch(ops, i, p) && ops[i].BlockOp? {
          assert i < n;
          assert LastTouch(ops[..n], i, p) && ops[..n][i].BlockOp?;
        }
      }
    }
  }

  ghost predicate LastTouch(ops: seq<Op>, i: nat, p: Prefix) {
    i < |ops| && Touches(ops[i], p) && forall j | i < j < |ops| :: !Touches(ops[j], p)
  }

  lemma LastTouchExtends(ops: seq<Op>, i: nat, p: Prefix)
    requires i < |ops| - 1 && !Touches(ops[|ops| - 1], p)
    ensures LastTouch(ops, i, p) <==> LastTouch(ops[..|ops| - 1], i, p)
  {
    var n := |ops| - 1;
    assert forall j | i <= j < n :: ops[..n][j] == ops[j];
    forall j | i < j < |ops| && LastTouch(ops[..n], i, p) ensures !Touches(ops[j], p) {
      assert j < n ==> !Touches(ops[..n][j], p);
    }
  }

  // A checked address is blocked exactly when some block in force covers it; an IPv4 address,
  // written in either family, needs one at least as long as the IPv4-mapped range.
  lemma CheckFindsCover(m: Blocks, a: Addr, now: Time, r: Option<Block>)
    requires Filed(m) && !a.NoAddr? && Checks(m, a, now, Some(r))
    ensures r.Some? <==> exists p :: p in m && Active(m[p], now) && IsValid(p) && Covers(p, a)
                                     && (IsIPv4(a) ==> WideLength(p) >= 96)
  {
    var c := CanonicalAddr(a).value;
    forall p | p in m
      ensures IsValid(p) && (Contains(p, c) <==> Covers(p, a) && (IsIPv4(a) ==> WideLength(p) >= 96))
    {
      CanonicalIsIdempotent(p);
      CanonicalKeepsContainment(p, a);
    }
    if p :| p in m && Active(m[p], now) && IsValid(p) && Covers(p, a)
            && (IsIPv4(a) ==> WideLength(p) >= 96) {
      assert Matches(m, c, now, m[p]);
    }
    if r.Some? {
      assert r.value.prefix in m;
    }
  }
}

/** ipblock/memory.go: a blocklist in process memory. */
module MemoryLists {
  import opened Blocklist
  import opened BlockSets
  import opened Prefixes
  import opened Results

  class MemoryList {
    var blocks: Blocks
    var index: BlockSet

    ghost predicate Valid()
      reads this
    {
      Filed(blocks) && index.byPrefix == blocks && index.Indexes()
    }

    constructor ()
      ensures Valid() && blocks == map[]
    {
      blocks := map[];
      index := BlockSet(map[], [], []);
    }

    method Block(b: Block, now: Time) returns (r: Outcome)
      requires Valid()
      modifies this
      ensures Valid() && (blocks, r) == Put(old(blocks), b, now)
    {
      var prepared := Prepare(b, now);
      if prepared.Err? {
        return prepared.error;
      }
      PrepareKeepsPrefix(b, now);
      blocks := blocks[prepared.value.prefix := prepared.value];
      Reindex();
      return Done;
    }

    method Unblock(p: Prefix, now: Time) returns (r: Outcome)
      requires Valid()
      modifies this
      ensures Valid() && (blocks, r) == Lift(old(blocks), p, now)
    {
      var c := Canonical(p);
      if c.None? {
        return BadPrefix;
      }
      if c.value !in blocks {
        return NotBlocked;
      }
      var b := blocks[c.value];
      blocks := blocks - {c.value};
      Reindex();
      return if Active(b, now) then Done else NotBlocked;
    }

    // Rebuilds the index from the blocks, read in any order.
    method Reindex()
      requires Filed(blocks)
      modifies this`index
      ensures Valid()
    {
      var values: seq<Block> := [];
      var pending := blocks.Keys;
      while pending != {}
        invariant pending <= blocks.Keys
        invariant forall b :: b in values <==> b.prefix in blocks && b.prefix !in pending
                                               && blocks[b.prefix] == b
        decreases |pending|
      {
        var p :| p in pending;
        pending := pending - {p};
        values := values + [blocks[p]];
      }
      LatestOfValues(values, blocks);
      index := NewBlockSet(values);
    }

    method Check(a: Addr, now: Time) returns (r: Option<Option<Block>>)
      requires Valid()
      ensures Checks(blocks, a, now, r)
    {
      var c := CanonicalAddr(a);
      if c.None? {
        return None;
      }
      CanonicalAddrIsIdempotent(a);
      var found := Lookup(index, c.value, now);
      return Some(found);
    }

    method ListBlocks(now: Time) returns (r: seq<Block>)
      requires Valid()
      ensures Listing(blocks, now, r)
    {
      r := List(index, now);
    }
  }

  // Indexing the values of a map, each once or more and in any order, gives back the map.
  lemma {:induction false} LatestOfValues(values: seq<Block>, m: Blocks)
    requires Filed(m) && forall b :: b in values <==> b.prefix in m && m[b.prefix] == b
    ensures AllCanonical(values) && Latest(values) == m
  {
    forall p ensures p in Latest(values) <==> p in m {
      LatestWins(values, p);
      if p in m {
        assert m[p] in values;
        var i :| 0 <= i < |values| && values[i] == m[p];
      }
      if i :| 0 <= i < |values| && values[i].prefix == p {
        assert values[i] in values;
      }
    }
    forall p | p in m ensures Latest(values)[p] == m[p] {
      LatestWins(values, p);
      var i :| 0 <= i < |values| && values[i].prefix == p && Latest(values)[p] == values[i];
      assert values[i] in values;
    }
  }
}

/** ipblock/document.go: a blocklist with one document per block.

    How netip prints and parses prefixes is not part of this model: a codec stands for it, of
    which only what the program relies on is asked. The document store keeps what it is given. */
module DocumentLists {
  import opened Blocklist
  import opened BlockSets
  import opened MemoryLists
  import opened Prefixes
  import opened Results

  datatype Codec = Codec(show: Prefix -> string, parse: string -> Option<Prefix>)
  {
    // Canonical prefixes parse back, and print without an underscore.
    ghost predicate Lossless() {
      forall p: Prefix | IsCanonical(p) :: parse(show(p)) == Some(p) && '_' !in show(p)
    }
  }

  // A stored block; expiresAt is None for a block that never lapses.
  datatype Document = Document(
    prefix: string, reason: string, blockedBy: string, blockedAt: Time, expiresAt: Option<Time>)

  function ToDocument(codec: Codec, b: Block): Document {
    Document(codec.show(b.prefix), b.reason, b.blockedBy, b.blockedAt,
             if b.expiresAt == 0 then None else Some(b.expiresAt))
  }

  // None for a document that does not hold a valid block.
  function FromDocument(codec: Codec, d: Document): Option<Block> {
    match codec.parse(d.prefix)
    case None => None
    case Some(p) =>
      match Canonical(p)
      case None => None
      case Some(c) =>
        Some(Block(c, d.reason, d.blockedBy, d.blockedAt,
                   match d.expiresAt case None => 0 case Some(t) => t))
  }

  // Replaces the first slash by an underscore.
  function ReplaceSlash(s: string): string {
    if s == [] then [] else if s[0] == '/' then "_" + s[1..] else [s[0]] + ReplaceSlash(s[1..])
  }

  function DocumentID(codec: Codec, p: Prefix): string {
    ReplaceSlash(codec.show(p))
  }

  lemma DocumentRoundTrip(codec: Codec, b: Block)
    requires codec.Lossless() && IsCanonical(b.prefix)
    ensures FromDocument(codec, ToDocument(codec, b)) == Some(b)
  {
  }

  lemma {:induction false} ReplaceSlashInjective(s: string, t: string)
    requires '_' !in s && '_' !in t && ReplaceSlash(s) == ReplaceSlash(t)
    ensures s == t
  {
    if s != [] && t != [] {
      assert ReplaceSlash(s)[0] == ReplaceSlash(t)[0];
      assert ReplaceSlash(s)[1..] == ReplaceSlash(t)[1..];
      assert s == [s[0]] + s[1..] && t == [t[0]] + t[1..];
      assert s[0] in s && t[0] in t;
      if s[0] != '/' {
        ReplaceSlashInjective(s[1..], t[1..]);
      }
    }
  }

  // Canonical prefixes have documents of their own.
  lemma DocumentIDInjective(codec: Codec, p: Prefix, q: Prefix)
    requires codec.Lossless() && IsCanonical(p) && IsCanonical(q)
    requires DocumentID(codec, p) == DocumentID(codec, q)
    ensures p == q
  {
    ReplaceSlashInjective(codec.show(p), codec.show(q));
    assert codec.parse(codec.show(p)) == codec.parse(codec.show(q));
  }

  // The entries of m are in db under their ids, and what else is in db is junk.
  ghost predicate Files<K(!new), V, D>(
    db: map<string, D>, m: map<K, V>, id: K -> string, doc: V -> D, junk: D -> bool)
  {
    && (forall k | k in m :: id(k) in db && db[id(k)] == doc(m[k]))
    && (forall i | i in db && !junk(db[i]) :: exists k :: k in m && id(k) == i)
  }

  lemma FilesSet<K(!new), V, D>(
    db: map<string, D>, m: map<K, V>, id: K -> string, doc: V -> D, junk: D -> bool, k: K, v: V)
    requires Files(db, m, id, doc, junk) && forall q | q in m && id(q) == id(k) :: q == k
    ensures Files(db[id(k) := doc(v)], m[k := v], id, doc, junk)
  {
    var more := m[k := v];
    forall i | i == id(k) || (i in db && !junk(db[i])) ensures exists q :: q in more && id(q) == i {
      if i == id(k) {
        assert k in more;
      } else {
        var q :| q in m && id(q) == i;
        assert q in more;
      }
    }
  }

  lemma FilesDelete<K(!new), V, D>(
    db: map<string, D>, m: map<K, V>, id: K -> string, doc: V -> D, junk: D -> bool, k: K)
    requires Files(db, m, id, doc, junk) && forall q | q in m && id(q) == id(k) :: q == k
    ensures Files(db - {id(k)}, m - {k}, id, doc, junk)
  {
    var fewer := m - {k};
    forall i | i in db && i != id(k) && !junk(db[i]) ensures exists q :: q in fewer && id(q) == i {
      var q :| q in m && id(q) == i;
      assert q in fewer;
    }
  }

  function IDs(codec: Codec): Prefix -> string {
    (p: Prefix) => DocumentID(codec, p)
  }

  function Documents(codec: Codec): Block -> Document {
    (b: Block) => ToDocument(codec, b)
  }

  function Unreadable(codec: Codec): Document -> bool {
    (d: Document) => FromDocument(codec, d).None?
  }

  // The documents that hold a valid block are exactly those of the blocks.
  ghost predicate Mirrors(codec: Codec, db: map<string, Document>, blocks: Blocks) {
    codec.Lossless() && Filed(blocks) && Files(db, blocks, IDs(codec), Documents(codec), Unreadable(codec))
  }

  // Under the id of p there is the document of its block, or one that holds no valid block.
  lemma OneDocument(codec: Codec, db: map<string, Document>, blocks: Blocks, p: Prefix)
    requires Mirrors(codec, db, blocks) && IsCanonical(p)
    ensures p in blocks ==>
              DocumentID(codec, p) in db && db[DocumentID(codec, p)] == ToDocument(codec, blocks[p])
    ensures p in blocks <==>
            DocumentID(codec, p) in db && !Unreadable(codec)(db[DocumentID(codec, p)])
    ensures forall q | q in blocks && IDs(codec)(q) == IDs(codec)(p) :: q == p
  {
    forall q | q in blocks && IDs(codec)(q) == IDs(codec)(p) ensures q == p {
      DocumentIDInjective(codec, q, p);
    }
    assert IDs(codec)(p) == DocumentID(codec, p);
    if p in blocks {
      DocumentRoundTrip(codec, blocks[p]);
      assert db[IDs(codec)(p)] == Documents(codec)(blocks[p]);
    }
  }

  // A document that can be read holds one block, which has no other document.
  lemma DocumentRead(codec: Codec, db: map<string, Document>, blocks: Blocks, id: string)
    requires Mirrors(codec, db, blocks) && id in db
    ensures var b := FromDocument(codec, db[id]);
            forall c: Block :: c.prefix in blocks && blocks[c.prefix] == c && IDs(codec)(c.prefix) == id <==> b == Some(c)
  {
    if !Unreadable(codec)(db[id]) {
      var p :| p in blocks && IDs(codec)(p) == id;
      OneDocument(codec, db, blocks, p);
      DocumentRoundTrip(codec, blocks[p]);
    } else {
      forall p | p in blocks ensures IDs(codec)(p) != id {
        OneDocument(codec, db, blocks, p);
      }
    }
  }

  predicate Lapsed(d: Document, now: Time) {
    d.expiresAt.Some? && now >= d.expiresAt.value
  }

  // Whether the document under the id of p, if there is one, holds no valid block.
  ghost predicate Spoiled(codec: Codec, db: map<string, Document>, p: Prefix) {
    var c := Canonical(p);
    c.Some? && DocumentID(codec, c.value) in db && Unreadable(codec)(db[DocumentID(codec, c.value)])
  }

  // Deleting the document of p from the store lifts the block on p, if there is one.
  lemma UnblockMirrors(codec: Codec, db: map<string, Document>, blocks: Blocks, p: Prefix, c: Prefix, now: Time)
    requires Mirrors(codec, db, blocks) && Canonical(p) == Some(c)
    ensures Mirrors(codec, db - {DocumentID(codec, c)}, blocks - {c})
    ensures Lift(blocks, p, now).0 == blocks - {c}
    ensures AllReadable(codec, db) ==> AllReadable(codec, db - {DocumentID(codec, c)})
  {
    CanonicalIsIdempotent(p);
    OneDocument(codec, db, blocks, c);
    FilesDelete(db, blocks, IDs(codec), Documents(codec), Unreadable(codec), c);
    assert c !in blocks ==> blocks - {c} == blocks;
  }

  // Every document holds a valid block.
  ghost predicate AllReadable(codec: Codec, db: map<string, Document>) {
    forall i | i in db :: !Unreadable(codec)(db[i])
  }

  // What is reported when the document of p is deleted.
  function Reported(codec: Codec, db: map<string, Document>, p: Prefix, now: Time): Outcome {
    match Canonical(p)
    case None => BadPrefix
    case Some(c) =>
      if DocumentID(codec, c) in db && !Lapsed(db[DocumentID(codec, c)], now) then Done else NotBlocked
  }

  // That is what the abstract map reports, exactly unless the document holds no valid block and
  // has not lapsed.
  lemma ReportedIff(codec: Codec, db: map<string, Document>, blocks: Blocks, p: Prefix, now: Time)
    requires Mirrors(codec, db, blocks)
    ensures Reported(codec, db, p, now) == Lift(blocks, p, now).1 <==>
            !(Spoiled(codec, db, p) && !Lapsed(db[DocumentID(codec, Canonical(p).value)], now))
  {
    if Canonical(p).Some? {
      CanonicalIsIdempotent(p);
      OneDocument(codec, db, blocks, Canonical(p).value);
    }
  }

  class DocumentList {
    const codec: Codec
    var db: map<string, Document>
    ghost var blocks: Blocks

    ghost predicate Valid()
      reads this
    {
      Mirrors(codec, db, blocks)
    }

    // Over a store of documents that hold no valid block.
    constructor (codec: Codec, db: map<string, Document>)
      requires codec.Lossless() && forall i | i in db :: Unreadable(codec)(db[i])
      ensures Valid() && blocks == map[] && this.codec == codec && this.db == db
    {
      this.codec := codec;
      this.db := db;
      blocks := map[];
    }

    method Block(b: Block, now: Time) returns (r: Outcome)
      requires Valid()
      modifies this
      ensures Valid() && (blocks, r) == Put(old(blocks), b, now)
      ensures AllReadable(codec, old(db)) ==> AllReadable(codec, db)
    {
      var prepared := Prepare(b, now);
      if prepared.Err? {
        return prepared.error;
      }
      var p := prepared.value.prefix;
      PrepareKeepsPrefix(b, now);
      OneDocument(codec, db, blocks, p);
      DocumentRoundTrip(codec, prepared.value);
      FilesSet(db, blocks, IDs(codec), Documents(codec), Unreadable(codec), p, prepared.value);
      db := db[DocumentID(codec, p) := ToDocument(codec, prepared.value)];
      blocks := blocks[p := prepared.value];
      return Done;
    }

    // Lifts the block. A document under its id that holds no valid block is deleted, and what is
    // reported is whether that had lapsed.
    method Unblock(p: Prefix, now: Time) returns (r: Outcome)
      requires Valid()
      modifies this
      ensures Valid() && blocks == Lift(old(blocks), p, now).0
      ensures r == Reported(codec, old(db), p, now)
      ensures r == Lift(old(blocks), p, now).1 <==>
              !(Spoiled(codec, old(db), p) && !Lapsed(old(db)[DocumentID(codec, Canonical(p).value)], now))
      ensures AllReadable(codec, old(db)) ==> AllReadable(codec, db)
    {
      ReportedIff(codec, db, blocks, p, now);
      var c := Canonical(p);
      if c.None? {
        return BadPrefix;
      }
      var id := DocumentID(codec, c.value);
      UnblockMirrors(codec, db, blocks, p, c.value, now);
      blocks := blocks - {c.value};
      if id !in db {
        assert db - {id} == db;
        return NotBlocked;
      }
      var doc := db[id];
      db := db - {id};
      return if Lapsed(doc, now) then NotBlocked else Done;
    }

    // Reads every document, in any order, skipping those that hold no valid block.
    method Load() returns (s: BlockSet)
      requires Valid()
      ensures s.byPrefix == blocks && Filed(blocks) && s.Indexes()
    {
      var values: seq<Block> := [];
      var pending := db.Keys;
      while pending != {}
        invariant pending <= db.Keys
        invariant forall b :: b in values <==>
                    b.prefix in blocks && blocks[b.prefix] == b && IDs(codec)(b.prefix) !in pending
        decreases |pending|
      {
        var id :| id in pending;
        DocumentRead(codec, db, blocks, id);
        pending := pending - {id};
        var b := FromDocument(codec, db[id]);
        if b.None? {
          continue;
        }
        values := values + [b.value];
      }
      LatestOfValues(values, blocks);
      s := NewBlockSet(values);
    }

    method Check(a: Addr, now: Time) returns (r: Option<Option<Block>>)
      requires Valid()
      ensures Checks(blocks, a, now, r)
    {
      var c := CanonicalAddr(a);
      if c.None? {
        return None;
      }
      CanonicalAddrIsIdempotent(a);
      var s := Load();
      var found := Lookup(s, c.value, now);
      return Some(found);
    }

    method ListBlocks(now: Time) returns (r: seq<Block>)
      requires Valid()
      ensures Listing(blocks, now, r)
    {
      var s := Load();
      r := List(s, now);
    }
  }

  // ----- a text form

  function Digits(bits: seq<bool>): string {
    seq(|bits|, i requires 0 <= i < |bits| => if bits[i] then '1' else '0')
  }

  function BitsFrom(s: string, from: nat, n: nat): seq<bool>
    requires from + n <= |s|
  {
    seq(n, i requires 0 <= i < n => s[from + i] == '1')
  }

  // The family, the bits, a slash, and the length as so many ones.
  function ShowPlain(p: Prefix): string {
    (match p.addr case NoAddr => "0" case V4(_) => "4" case V6(_, _) => "6")
      + Digits(p.addr.Bits()) + "/" + seq(if p.length < 0 then 0 else p.length, _ => '1')
  }

  function ParsePlain(s: string): Option<Prefix> {
    if |s| >= 34 && s[0] == '4' then Some(PrefixFrom(V4(BitsFrom(s, 1, 32)), |s| - 34))
    else if |s| >= 130 && s[0] == '6' then Some(PrefixFrom(V6(BitsFrom(s, 1, 128), ""), |s| - 130))
    else None
  }

  const PLAIN := Codec(ShowPlain, ParsePlain)

  lemma ParseShown(p: Prefix)
    requires IsValid(p)
    ensures ParsePlain(ShowPlain(p)) == Some(p)
  {
    var s, bits := ShowPlain(p), p.addr.Bits();
    assert forall i | 0 <= i < |bits| :: s[1 + i] == Digits(bits)[i];
    assert BitsFrom(s, 1, |bits|) == bits;
  }

  lemma ShownPlainly(p: Prefix)
    ensures '_' !in ShowPlain(p)
  {
    var bits, n := Digits(p.addr.Bits()), seq(if p.length < 0 then 0 else p.length, _ => '1');
    assert '_' !in bits && '_' !in n;
  }

  // There are lossless text forms.
  lemma PlainIsLossless()
    ensures PLAIN.Lossless()
  {
    forall p: Prefix | IsCanonical(p)
      ensures PLAIN.parse(PLAIN.show(p)) == Some(p) && '_' !in PLAIN.show(p)
    {
      CanonicalIsIdempotent(p);
      ParseShown(p);
      ShownPlainly(p);
    }
  }

  // ----- a block that was never there

  // A hand-edited document: it holds no valid block, and has not lapsed.
  const EDITED := Document("10.0.0.0/33", "spam", "ops", 1, None)

  // Lifting a block that was never set deletes the document under its id, and succeeds.
  method UnblockSpoiled(p: Prefix, now: Time) returns (r: Outcome)
    requires IsCanonical(p)
    ensures r == Done && Lift(map[], p, now).1 == NotBlocked
  {
    PlainIsLossless();
    assert EDITED.prefix[0] == '1';
    assert PLAIN.parse(EDITED.prefix) == None;
    var list := new DocumentList(PLAIN, map[DocumentID(PLAIN, p) := EDITED]);
    r := list.Unblock(p, now);
  }
}

/** Both lists under the same operations with the same clock readings. */
module BothLists {
  import opened Blocklist
  import opened BlockSets
  import opened DocumentLists
  import opened MemoryLists
  import opened Prefixes
  import opened Results

  function OutcomesOf(ops: seq<Op>): seq<Outcome> {
    if ops == [] then []
    else
      var n := |ops| - 1;
      OutcomesOf(ops[..n]) + [Apply(ApplyAll(map[], ops[..n]), ops[n]).1]
  }

  // Runs the operations on both lists: they report the same outcomes, those of the abstract map,
  // and then give the same answer for any address and the same list.
  method RunBoth(ops: seq<Op>, codec: Codec, a: Addr, now: Time)
    returns (fromMemory: seq<Outcome>, fromDocuments: seq<Outcome>,
             check: Option<Option<Block>>, check': Option<Option<Block>>,
             list: seq<Block>, list': seq<Block>)
    requires codec.Lossless()
    ensures fromMemory == fromDocuments == OutcomesOf(ops)
    ensures check == check' && Checks(ApplyAll(map[], ops), a, now, check)
    ensures list == list' && Listing(ApplyAll(map[], ops), now, list)
  {
    var memory := new MemoryList();
    var documents := new DocumentList(codec, map[]);
    fromMemory, fromDocuments := [], [];
    for i := 0 to |ops|
      invariant memory.Valid() && documents.Valid() && documents.codec == codec && AllReadable(codec, documents.db)
      invariant memory.blocks == documents.blocks == ApplyAll(map[], ops[..i])
      invariant fromMemory == fromDocuments == OutcomesOf(ops[..i])
      invariant fresh(memory) && fresh(documents)
    {
      assert ops[..i + 1][..i] == ops[..i];
      var r, r';
      match ops[i] {
        case BlockOp(b, t) =>
          r := memory.Block(b, t);
          r' := documents.Block(b, t);
        case UnblockOp(p, t) =>
          r := memory.Unblock(p, t);
          r' := documents.Unblock(p, t);
      }
      fromMemory := fromMemory + [r];
      fromDocuments := fromDocuments + [r'];
    }
    assert ops[..|ops|] == ops;
    check := memory.Check(a, now);
    check' := documents.Check(a, now);
    list := memory.ListBlocks(now);
    list' := documents.ListBlocks(now);
    OneAnswer(memory.blocks, a, now, check, check', list, list');
  }
}
