/** ipblock/set.go: blocks indexed by prefix, for matching addresses. */
module BlockSets {
  import opened Prefixes
  import opened Results
  import opened Sorting

  // A time; zero is the zero time, which for an expiry means never.
  type Time = int

  datatype Block = Block(prefix: Prefix, reason: string, blockedBy: string, blockedAt: Time, expiresAt: Time)

  datatype Outcome = Done | BadPrefix | AlreadyExpired | NotBlocked

  type Blocks = map<Prefix, Block>

  predicate Active(b: Block, now: Time) {
    b.expiresAt == 0 || now < b.expiresAt
  }

  // Validates b and returns it as it is stored.
  function Prepare(b: Block, now: Time): Result<Block, Outcome> {
    match Canonical(b.prefix)
    case None => Err(BadPrefix)
    case Some(p) =>
      if b.expiresAt != 0 && b.expiresAt <= now then Err(AlreadyExpired)
      else Ok(b.(prefix := p, blockedAt := if b.blockedAt == 0 then now else b.blockedAt))
  }

  // Every block is filed under its own canonical prefix.
  ghost predicate Filed(m: Blocks) {
    forall p | p in m :: IsCanonical(p) && m[p].prefix == p
  }

  // ----- what the index answers

  // A block in force that covers the address.
  ghost predicate Matches(m: Blocks, a: Addr, now: Time, b: Block) {
    b.prefix in m && m[b.prefix] == b && Contains(b.prefix, a) && Active(b, now)
  }

  // The narrowest of the matching blocks, or none if there is none.
  ghost predicate Narrowest(m: Blocks, a: Addr, now: Time, r: Option<Block>) {
    match r
    case None => forall p | p in m :: !Matches(m, a, now, m[p])
    case Some(b) =>
      && Matches(m, a, now, b)
      && forall p | p in m && Matches(m, a, now, m[p]) :: p.length <= b.prefix.length
  }

  lemma NarrowestUnique(m: Blocks, a: Addr, now: Time, r: Option<Block>, r': Option<Block>)
    requires Filed(m) && Narrowest(m, a, now, r) && Narrowest(m, a, now, r')
    ensures r == r'
  {
    if r.Some? && r'.Some? {
      assert Matches(m, a, now, m[r.value.prefix]) && Matches(m, a, now, m[r'.value.prefix]);
      ContainingPrefixUnique(r.value.prefix, r'.value.prefix, a);
    }
  }

  predicate BlockLess(b: Block, c: Block) {
    PrefixLess(b.prefix, c.prefix)
  }

  // The blocks in force, each once, ordered by prefix.
  ghost predicate Listing(m: Blocks, now: Time, s: seq<Block>) {
    && Ordered(s, BlockLess)
    && forall b :: b in s <==> b.prefix in m && m[b.prefix] == b && Active(b, now)
  }

  lemma ListingUnique(m: Blocks, now: Time, s: seq<Block>, t: seq<Block>)
    requires Listing(m, now, s) && Listing(m, now, t)
    ensures s == t
  {
    forall b, c ensures !(BlockLess(b, c) && BlockLess(c, b)) {
      PrefixLessTotal(b.prefix, c.prefix);
    }
    AscendingUnique(s, t, BlockLess);
  }

  // ----- descending prefix lengths

  predicate AtMost(x: nat, y: nat) {
    x <= y
  }

  // slices.Compact: drops repeated neighbours.
  function Compact(s: seq<nat>): seq<nat> {
    if |s| <= 1 then s
    else if s[0] == s[1] then Compact(s[1..])
    else [s[0]] + Compact(s[1..])
  }

  function Reverse(s: seq<nat>): seq<nat> {
    seq(|s|, i requires 0 <= i < |s| => s[|s| - 1 - i])
  }

  // slices.Sort, slices.Compact and slices.Reverse, in that order.
  function Descending(s: seq<nat>): seq<nat> {
    Reverse(Compact(Sort(s, AtMost)))
  }

  ghost predicate StrictlyDescending(s: seq<nat>) {
    forall i, j | 0 <= i < j < |s| :: s[i] > s[j]
  }

  lemma {:induction false} CompactAscends(s: seq<nat>)
    requires forall i, j | 0 <= i < j < |s| :: s[i] <= s[j]
    ensures s != [] ==> Compact(s) != [] && Compact(s)[0] == s[0]
    ensures forall i, j | 0 <= i < j < |Compact(s)| :: Compact(s)[i] < Compact(s)[j]
    ensures forall x :: x in Compact(s) <==> x in s
  {
    if |s| > 1 {
      CompactAscends(s[1..]);
      assert s == [s[0]] + s[1..];
      var rest := Compact(s[1..]);
      if s[0] != s[1] {
        forall j | 0 <= j < |rest| ensures s[0] < rest[j] {
          assert rest[j] >= rest[0] == s[1];
        }
      } else {
        assert s[0] in s[1..];
      }
    }
  }

  lemma ReverseElements(s: seq<nat>)
    ensures |Reverse(s)| == |s| && forall x :: x in Reverse(s) <==> x in s
  {
    var r := Reverse(s);
    forall x ensures x in r <==> x in s {
      if i :| 0 <= i < |s| && s[i] == x {
        assert r[|s| - 1 - i] == x;
      }
      if i :| 0 <= i < |r| && r[i] == x {
        assert s[|s| - 1 - i] == x;
      }
    }
  }

  lemma {:induction false} SortLengths(s: seq<nat>)
    ensures forall i, j | 0 <= i < j < |Sort(s, AtMost)| :: Sort(s, AtMost)[i] <= Sort(s, AtMost)[j]
    ensures forall x :: x in Sort(s, AtMost) <==> x in s
  {
    var sorted, always := Sort(s, AtMost), (x: nat, y: nat) => true;
    SortIsStable(s, AtMost, always);
    SortPermutes(s, AtMost);
    SameElements(sorted, s);
    forall i, j | 0 <= i < j < |sorted| ensures sorted[i] <= sorted[j] {
      assert AtMost(sorted[i], sorted[j]);
    }
  }

  lemma DescendingSorts(s: seq<nat>)
    ensures StrictlyDescending(Descending(s))
    ensures forall x :: x in Descending(s) <==> x in s
  {
    SortLengths(s);
    CompactAscends(Sort(s, AtMost));
    ReverseElements(Compact(Sort(s, AtMost)));
  }

  // ----- the index

  datatype BlockSet = BlockSet(byPrefix: Blocks, lengths4: seq<nat>, lengths6: seq<nat>)
  {
    // The lengths are those of the filed prefixes, by family, longest first.
    ghost predicate Indexes() {
      && StrictlyDescending(lengths4) && StrictlyDescending(lengths6)
      && Has(byPrefix, lengths4, true) && Has(byPrefix, lengths6, false)
    }
  }

  ghost predicate Has(m: Blocks, lengths: seq<nat>, v4: bool) {
    forall n :: n in lengths <==> HasLength(m, v4, n)
  }

  ghost predicate HasLength(m: Blocks, v4: bool, n: nat) {
    exists p :: p in m && p.addr.V4? == v4 && p.length == n
  }

  // The blocks by prefix; a later block replaces an earlier one on the same prefix.
  function Latest(blocks: seq<Block>): Blocks {
    if blocks == [] then map[]
    else Latest(blocks[..|blocks| - 1])[blocks[|blocks| - 1].prefix := blocks[|blocks| - 1]]
  }

  // A block is found under its prefix if and only if no later block has that prefix.
  lemma {:induction false} LatestWins(blocks: seq<Block>, p: Prefix)
    ensures p in Latest(blocks) <==> exists i :: 0 <= i < |blocks| && blocks[i].prefix == p
    ensures p in Latest(blocks) ==>
              exists i :: 0 <= i < |blocks| && blocks[i].prefix == p && Latest(blocks)[p] == blocks[i]
                          && forall j | i < j < |blocks| :: blocks[j].prefix != p
  {
    if blocks != [] {
      var n := |blocks| - 1;
      LatestWins(blocks[..n], p);
      if blocks[n].prefix != p && p in Latest(blocks[..n]) {
        var i :| 0 <= i < n && blocks[..n][i].prefix == p && Latest(blocks[..n])[p] == blocks[..n][i]
                 && forall j | i < j < n :: blocks[..n][j].prefix != p;
        assert blocks[i].prefix == p;
        forall j | i < j < |blocks| ensures blocks[j].prefix != p {
          assert j < n ==> blocks[..n][j] == blocks[j];
        }
      }
      if i :| 0 <= i < |blocks| && blocks[i].prefix == p {
        assert i < n ==> blocks[..n][i].prefix == p;
      }
    }
  }

  ghost predicate AllCanonical(blocks: seq<Block>) {
    forall b | b in blocks :: IsCanonical(b.prefix)
  }

  lemma {:induction false} LatestIsFiled(blocks: seq<Block>)
    requires AllCanonical(blocks)
    ensures Filed(Latest(blocks))
  {
    forall p | p in Latest(blocks) ensures IsCanonical(p) && Latest(blocks)[p].prefix == p {
      LatestWins(blocks, p);
      var i :| 0 <= i < |blocks| && blocks[i].prefix == p && Latest(blocks)[p] == blocks[i];
      assert blocks[i] in blocks;
    }
  }

  lemma HasMore(m: Blocks, b: Block, lengths: seq<nat>, v4: bool)
    requires Has(m, lengths, v4) && IsCanonical(b.prefix)
    ensures b.prefix !in m && b.prefix.addr.V4? == v4 ==>
              Has(m[b.prefix := b], lengths + [b.prefix.length], v4)
    ensures b.prefix in m || b.prefix.addr.V4? != v4 ==> Has(m[b.prefix := b], lengths, v4)
  {
    var more := m[b.prefix := b];
    forall n: nat
      ensures HasLength(more, v4, n) <==>
              HasLength(m, v4, n) || (b.prefix.addr.V4? == v4 && b.prefix.length == n)
    {
      if p :| p in m && p.addr.V4? == v4 && p.length == n {
        assert p in more;
      }
      if b.prefix.addr.V4? == v4 && b.prefix.length == n {
        assert b.prefix in more;
      }
    }
  }

  /** Indexes blocks, whose prefixes must be canonical. */
  method NewBlockSet(blocks: seq<Block>) returns (s: BlockSet)
    requires AllCanonical(blocks)
    ensures s.byPrefix == Latest(blocks) && Filed(s.byPrefix) && s.Indexes()
  {
    var byPrefix: Blocks := map[];
    var lengths4, lengths6: seq<nat> := [], [];
    for i := 0 to |blocks|
      invariant byPrefix == Latest(blocks[..i])
      invariant Has(byPrefix, lengths4, true) && Has(byPrefix, lengths6, false)
    {
      var b := blocks[i];
      assert b in blocks;
      assert blocks[..i + 1][..i] == blocks[..i];
      HasMore(byPrefix, b, lengths4, true);
      HasMore(byPrefix, b, lengths6, false);
      if b.prefix !in byPrefix {
        var n: nat := b.prefix.length;
        if b.prefix.addr.V4? {
          lengths4 := lengths4 + [n];
        } else {
          lengths6 := lengths6 + [n];
        }
      }
      byPrefix := byPrefix[b.prefix := b];
    }
    assert blocks[..|blocks|] == blocks;
    DescendingSorts(lengths4);
    DescendingSorts(lengths6);
    LatestIsFiled(blocks);
    s := BlockSet(byPrefix, Descending(lengths4), Descending(lengths6));
  }

  lemma ProbeFinds(a: Addr, n: nat, p: Prefix)
    requires IsCanonicalAddr(a) && n <= |a.Bits()|
    requires IsCanonical(p) && p.length == n && Contains(p, a)
    ensures Masked(PrefixFrom(a, n)) == p
  {
    MaskedSelf(p);
  }

  lemma ProbeContains(a: Addr, n: nat)
    requires IsCanonicalAddr(a) && n <= |a.Bits()|
    ensures Contains(Masked(PrefixFrom(a, n)), a) && Masked(PrefixFrom(a, n)).length == n
    ensures Masked(PrefixFrom(a, n)).addr.V4? == a.V4?
  {
    HeadKeeps(a.Bits(), n, n);
  }

  // No filed block of one of these lengths matches.
  ghost predicate NoneOfLengths(m: Blocks, a: Addr, now: Time, lengths: seq<nat>) {
    forall p | p in m && Matches(m, a, now, m[p]) :: p.length !in lengths
  }

  lemma ProbeMisses(m: Blocks, a: Addr, now: Time, n: nat)
    requires Filed(m) && IsCanonicalAddr(a) && n <= |a.Bits()|
    requires var p := Masked(PrefixFrom(a, n)); p !in m || !Active(m[p], now)
    ensures forall p | p in m && Matches(m, a, now, m[p]) :: p.length != n
  {
    forall p | p in m && Matches(m, a, now, m[p]) ensures p.length != n {
      if p.length == n {
        ProbeFinds(a, n, p);
      }
    }
  }

  // Probing one more length in vain.
  lemma MissStep(m: Blocks, a: Addr, now: Time, lengths: seq<nat>, i: nat)
    requires Filed(m) && IsCanonicalAddr(a) && Has(m, lengths, a.V4?) && i < |lengths|
    requires NoneOfLengths(m, a, now, lengths[..i])
    requires var p := Masked(PrefixFrom(a, lengths[i])); p !in m || !Active(m[p], now)
    ensures NoneOfLengths(m, a, now, lengths[..i + 1])
  {
    assert lengths[..i + 1] == lengths[..i] + [lengths[i]];
    LengthFits(m, lengths, a, lengths[i]);
    ProbeMisses(m, a, now, lengths[i]);
  }

  lemma NoneAtAll(m: Blocks, a: Addr, now: Time, lengths: seq<nat>)
    requires Has(m, lengths, a.V4?) && NoneOfLengths(m, a, now, lengths)
    ensures Narrowest(m, a, now, None)
  {
    forall p | p in m ensures !Matches(m, a, now, m[p]) {
      assert Contains(p, a) ==> HasLength(m, a.V4?, p.length);
    }
  }

  /** The narrowest block in force at now that covers the canonical address a. */
  method Lookup(s: BlockSet, a: Addr, now: Time) returns (r: Option<Block>)
    requires Filed(s.byPrefix) && s.Indexes() && IsCanonicalAddr(a)
    ensures Narrowest(s.byPrefix, a, now, r)
  {
    var lengths := if a.V4? then s.lengths4 else s.lengths6;
    for i := 0 to |lengths|
      invariant NoneOfLengths(s.byPrefix, a, now, lengths[..i])
    {
      var p := Masked(PrefixFrom(a, lengths[i]));
      if p in s.byPrefix && Active(s.byPrefix[p], now) {
        FoundIsNarrowest(s.byPrefix, a, now, lengths, i);
        return Some(s.byPrefix[p]);
      }
      MissStep(s.byPrefix, a, now, lengths, i);
    }
    assert lengths[..|lengths|] == lengths;
    NoneAtAll(s.byPrefix, a, now, lengths);
    return None;
  }

  lemma LengthFits(m: Blocks, lengths: seq<nat>, a: Addr, n: nat)
    requires Filed(m) && Has(m, lengths, a.V4?) && n in lengths && IsCanonicalAddr(a)
    ensures n <= |a.Bits()|
  {
    var p :| p in m && p.addr.V4? == a.V4? && p.length == n;
    assert IsCanonical(p);
  }

  lemma FoundIsNarrowest(m: Blocks, a: Addr, now: Time, lengths: seq<nat>, i: nat)
    requires Filed(m) && IsCanonicalAddr(a) && Has(m, lengths, a.V4?) && StrictlyDescending(lengths)
    requires i < |lengths| && NoneOfLengths(m, a, now, lengths[..i])
    requires Masked(PrefixFrom(a, lengths[i])) in m && Active(m[Masked(PrefixFrom(a, lengths[i]))], now)
    ensures Narrowest(m, a, now, Some(m[Masked(PrefixFrom(a, lengths[i]))]))
  {
    var n := lengths[i];
    LengthFits(m, lengths, a, n);
    ProbeContains(a, n);
    forall p | p in m && Matches(m, a, now, m[p]) ensures p.length <= n {
      assert p.length in lengths;
      var k :| 0 <= k < |lengths| && lengths[k] == p.length;
      assert k < i ==> lengths[k] in lengths[..i];
    }
  }

  predicate BlockAtMost(b: Block, c: Block) {
    !BlockLess(c, b)
  }

  // The active blocks of the prefixes read so far, each once.
  ghost predicate Gathered(m: Blocks, now: Time, pending: set<Prefix>, r: seq<Block>) {
    && (forall i, j | 0 <= i < j < |r| :: r[i].prefix != r[j].prefix)
    && (forall b :: b in r <==> b.prefix in m && b.prefix !in pending && m[b.prefix] == b && Active(b, now))
  }

  lemma GatherMore(m: Blocks, now: Time, pending: set<Prefix>, r: seq<Block>, p: Prefix)
    requires Filed(m) && Gathered(m, now, pending, r) && p in pending && p in m
    ensures Gathered(m, now, pending - {p}, if Active(m[p], now) then r + [m[p]] else r)
  {
    forall i | 0 <= i < |r| ensures r[i].prefix != p {
      assert r[i] in r;
    }
  }

  /** The blocks in force at now, ordered by prefix, whatever order the map is read in. */
  method List(s: BlockSet, now: Time) returns (r: seq<Block>)
    requires Filed(s.byPrefix)
    ensures Listing(s.byPrefix, now, r)
  {
    r := [];
    var pending := s.byPrefix.Keys;
    while pending != {}
      invariant pending <= s.byPrefix.Keys && Gathered(s.byPrefix, now, pending, r)
      decreases |pending|
    {
      var p :| p in pending;
      GatherMore(s.byPrefix, now, pending, r, p);
      pending := pending - {p};
      if Active(s.byPrefix[p], now) {
        r := r + [s.byPrefix[p]];
      }
    }
    SortBlocks(r);
    r := Sort(r, BlockAtMost);
  }

  lemma {:induction false} SortBlocks(s: seq<Block>)
    requires forall i, j | 0 <= i < j < |s| :: s[i].prefix != s[j].prefix
    ensures Ordered(Sort(s, BlockAtMost), BlockLess)
    ensures forall b :: b in Sort(s, BlockAtMost) <==> b in s
  {
    var differ, t := (b: Block, c: Block) => b.prefix != c.prefix, Sort(s, BlockAtMost);
    forall b, c ensures BlockAtMost(b, c) || BlockAtMost(c, b) {
      PrefixLessTotal(b.prefix, c.prefix);
    }
    SortIsStable(s, BlockAtMost, differ);
    SortPermutes(s, BlockAtMost);
    SameElements(t, s);
    forall i, j | 0 <= i < j < |t| ensures BlockLess(t[i], t[j]) {
      assert BlockAtMost(t[i], t[j]) && (BlockAtMost(t[j], t[i]) ==> differ(t[i], t[j]));
      PrefixLessTotal(t[i].prefix, t[j].prefix);
    }
  }
}
