/** emailprovider/sendgrid/sendgrid.go: batching private messages into requests. */
module Batching {
  // A request takes this many messages at most.
  const MAX_PERSONALIZATIONS := 1000

  datatype Body = Body(text: string, html: string)

  datatype Message = Message(recipient: string, subject: string, body: Body)

  datatype Indexed = Indexed(index: nat, message: Message)

  predicate DistinctRecipients(s: seq<Indexed>) {
    forall i, j | 0 <= i < j < |s| :: s[i].message.recipient != s[j].message.recipient
  }

  // What one request may hold.
  predicate Fits(s: seq<Indexed>) {
    |s| <= MAX_PERSONALIZATIONS && DistinctRecipients(s)
  }

  function Concat<T>(ss: seq<seq<T>>): seq<T> {
    if ss == [] then [] else ss[0] + Concat(ss[1..])
  }

  lemma {:induction false} ConcatAppend<T>(ss: seq<seq<T>>, s: seq<T>)
    ensures Concat(ss + [s]) == Concat(ss) + s
  {
    if ss == [] {
      assert [s][1..] == [] && [] + [s] == [s];
    } else {
      assert (ss + [s])[1..] == ss[1..] + [s];
      ConcatAppend(ss[1..], s);
    }
  }

  // Every request but the last could not also hold the message that follows it.
  ghost predicate Full(requests: seq<seq<Indexed>>) {
    forall k | 0 <= k < |requests| - 1 :: FullAt(requests, k)
  }

  ghost predicate FullAt(requests: seq<seq<Indexed>>, k: nat)
    requires k < |requests| - 1
  {
    requests[k + 1] != [] && !Fits(requests[k] + [requests[k + 1][0]])
  }

  ghost predicate Splits(requests: seq<seq<Indexed>>, group: seq<Indexed>) {
    Concat(requests) == group && forall k | 0 <= k < |requests| :: Fits(requests[k])
  }

  function Recipients(request: seq<Indexed>): set<string> {
    set i | i in request :: i.message.recipient
  }

  lemma NoRoom(request: seq<Indexed>, next: Indexed)
    requires |request| == MAX_PERSONALIZATIONS || next.message.recipient in Recipients(request)
    ensures !Fits(request + [next])
  {
    var more := request + [next];
    if next.message.recipient in Recipients(request) {
      var i :| i in request && i.message.recipient == next.message.recipient;
      var j :| 0 <= j < |request| && request[j] == i;
      assert more[j].message.recipient == more[|request|].message.recipient;
    }
  }

  lemma Room(request: seq<Indexed>, next: Indexed)
    requires Fits(request) && |request| < MAX_PERSONALIZATIONS
    requires next.message.recipient !in Recipients(request)
    ensures Fits(request + [next])
  {
    forall j | 0 <= j < |request| ensures request[j].message.recipient != next.message.recipient {
      assert request[j] in request;
    }
  }

  lemma RecipientsMore(request: seq<Indexed>, next: Indexed)
    ensures Recipients(request + [next]) == Recipients(request) + {next.message.recipient}
  {
    var more := request + [next];
    forall r ensures r in Recipients(more) <==> r in Recipients(request) || r == next.message.recipient {
      if r == next.message.recipient {
        assert next in more;
      }
      if r in Recipients(request) {
        var i :| i in request && i.message.recipient == r;
        assert i in more;
      }
    }
  }

  lemma Grows(requests0: seq<seq<Indexed>>, request0: seq<Indexed>,
              requests: seq<seq<Indexed>>, request: seq<Indexed>, next: Indexed)
    requires Full(requests0 + [request0]) || request0 == []
    requires request0 == [] ==> requests0 == []
    requires (requests == requests0 && request == request0 + [next])
             || (requests == requests0 + [request0] && request == [next]
                 && request0 != [] && !Fits(request0 + [next]))
    ensures Full(requests + [request])
  {
    var before, after := requests0 + [request0], requests + [request];
    forall k | 0 <= k < |after| - 1 ensures FullAt(after, k) {
      if k + 1 < |before| {
        assert FullAt(before, k);
        assert after[k] == before[k] && after[k + 1][0] == before[k + 1][0];
      } else {
        assert after[k] == request0 && after[k + 1] == [next];
      }
    }
  }

  // The requests cut off the first i messages, and the one being filled.
  ghost predicate Progress(requests: seq<seq<Indexed>>, request: seq<Indexed>, group: seq<Indexed>, i: nat)
    requires i <= |group|
  {
    && Concat(requests) + request == group[..i]
    && (forall k | 0 <= k < |requests| :: requests[k] != [] && Fits(requests[k]))
    && Fits(request)
    && (Full(requests + [request]) || request == [])
    && (request == [] ==> i == 0 && requests == [])
  }

  lemma Fill(requests: seq<seq<Indexed>>, request: seq<Indexed>, group: seq<Indexed>, i: nat)
    requires i < |group| && Progress(requests, request, group, i)
    requires |request| < MAX_PERSONALIZATIONS && group[i].message.recipient !in Recipients(request)
    ensures Progress(requests, request + [group[i]], group, i + 1)
  {
    Room(request, group[i]);
    Grows(requests, request, requests, request + [group[i]], group[i]);
    assert group[..i + 1] == group[..i] + [group[i]];
    assert Concat(requests) + (request + [group[i]]) == Concat(requests) + request + [group[i]];
  }

  lemma Cut(requests: seq<seq<Indexed>>, request: seq<Indexed>, group: seq<Indexed>, i: nat)
    requires i < |group| && Progress(requests, request, group, i)
    requires |request| == MAX_PERSONALIZATIONS || group[i].message.recipient in Recipients(request)
    ensures Progress(requests + [request], [group[i]], group, i + 1)
  {
    NoRoom(request, group[i]);
    Grows(requests, request, requests + [request], [group[i]], group[i]);
    ConcatAppend(requests, request);
    assert group[..i + 1] == group[..i] + [group[i]];
  }

  /** Cuts a group into requests, each as long as it can be. */
  method SplitRequests(group: seq<Indexed>) returns (requests: seq<seq<Indexed>>)
    ensures Splits(requests, group) && Full(requests)
    ensures forall k | 0 <= k < |requests| :: 1 <= |requests[k]| <= 1000
  {
    requests := [];
    var request: seq<Indexed> := [];
    var seen: set<string> := {};
    for i := 0 to |group|
      invariant Progress(requests, request, group, i) && seen == Recipients(request)
    {
      var recipient := group[i].message.recipient;
      if |request| == MAX_PERSONALIZATIONS || recipient in seen {
        Cut(requests, request, group, i);
        requests := requests + [request];
        request := [];
        seen := {};
        assert request + [group[i]] == [group[i]];
      } else {
        Fill(requests, request, group, i);
      }
      RecipientsMore(request, group[i]);
      request := request + [group[i]];
      seen := seen + {recipient};
    }
    assert group[..|group|] == group;
    if |request| != 0 {
      ConcatAppend(requests, request);
      requests := requests + [request];
    }
  }

  // ----- no split uses fewer requests

  lemma SliceFits(piece: seq<Indexed>, group: seq<Indexed>, from: int, to: int)
    requires piece <= group
    ensures Fits(piece) && 0 <= from <= to <= |piece| ==> Fits(group[from..to])
  {
    if 0 <= from <= to <= |piece| {
      assert group[from..to] == piece[from..to];
    }
  }

  // Full requests for what is left of a group after d messages are no more than the pieces of
  // any split of the whole group.
  lemma {:induction false} FullIsFewest(
    requests: seq<seq<Indexed>>, pieces: seq<seq<Indexed>>, group: seq<Indexed>, d: nat)
    requires d <= |group| && Concat(requests) == group[d..] && Splits(pieces, group)
    requires Full(requests) && forall k | 0 <= k < |requests| :: requests[k] != []
    ensures |requests| <= |pieces|
    decreases |pieces|
  {
    assert requests != [] ==> |Concat(requests)| >= |requests[0]| > 0;
    assert pieces == [] ==> group == [];
    if requests != [] {
      var piece, rest := pieces[0], group[|pieces[0]|..];
      assert group == piece + Concat(pieces[1..]);
      assert Splits(pieces[1..], rest);
      if d >= |piece| {
        assert group[d..] == rest[d - |piece|..];
        FullIsFewest(requests, pieces[1..], rest, d - |piece|);
      } else if |requests| > 1 {
        var first := requests[0];
        FirstReachesPiece(requests, piece, group, d);
        var d' := d + |first| - |piece|;
        assert group[d..][|first|..] == group[d + |first|..] == rest[d'..];
        assert Concat(requests[1..]) == Concat(requests)[|first|..];
        FullTail(requests);
        FullIsFewest(requests[1..], pieces[1..], rest, d');
      }
    }
  }

  lemma FullTail(requests: seq<seq<Indexed>>)
    requires Full(requests) && requests != []
    ensures Full(requests[1..])
  {
    forall k | 0 <= k < |requests[1..]| - 1 ensures FullAt(requests[1..], k) {
      assert FullAt(requests, k + 1);
    }
  }

  // A full request that starts inside a piece goes on to its end.
  lemma {:induction false} FirstReachesPiece(requests: seq<seq<Indexed>>, piece: seq<Indexed>, group: seq<Indexed>, d: nat)
    requires piece <= group && Fits(piece) && d < |piece|
    requires |requests| > 1 && Full(requests) && Concat(requests) == group[d..]
    ensures d + |requests[0]| >= |piece|
  {
    var first := requests[0];
    assert FullAt(requests, 0);
    assert Concat(requests) == first + (requests[1] + Concat(requests[1..][1..]));
    assert |group[d..]| == |Concat(requests)| >= |first| + 1;
    assert first + [requests[1][0]] == group[d..][..|first| + 1] == group[d..d + |first| + 1];
    SliceFits(piece, group, d, d + |first| + 1);
  }

  // The requests of SplitRequests are as few as any contiguous split within the limits needs.
  lemma SplitRequestsIsOptimal(requests: seq<seq<Indexed>>, pieces: seq<seq<Indexed>>, group: seq<Indexed>)
    requires Splits(requests, group) && Full(requests)
    requires forall k | 0 <= k < |requests| :: requests[k] != []
    requires Splits(pieces, group)
    ensures |requests| <= |pieces|
  {
    assert group[0..] == group;
    FullIsFewest(requests, pieces, group, 0);
  }
}

/** emailprovider/sendgrid/sendgrid.go: grouping messages by body, sending, and scattering the
    outcomes back to the messages. */
module Sending {
  import opened Batching

  // What the provider answers a request.
  datatype Response = Accepted(id: string) | Rejected(error: string) | Unknown(error: string)

  datatype Outcome = Unsent | Answered(response: Response)

  ghost predicate Holds(request: seq<Indexed>, i: nat) {
    exists j :: 0 <= j < |request| && request[j].index == i
  }

  // No message is in two of the requests.
  ghost predicate Disjoint(sent: seq<seq<Indexed>>) {
    forall k, l, i | 0 <= k < l < |sent| && Holds(sent[k], i) :: !Holds(sent[l], i)
  }

  ghost predicate HeldBy(sent: seq<seq<Indexed>>, i: nat) {
    exists k :: 0 <= k < |sent| && Holds(sent[k], i)
  }

  // Every message in a request has the answer to that request, and the others none.
  ghost predicate Scattered(results: seq<Outcome>, sent: seq<seq<Indexed>>, responses: nat -> Response) {
    && (forall k: nat, i: nat | k < |sent| && i < |results| && Holds(sent[k], i) ::
          results[i] == Answered(responses(k)))
    && (forall i: nat | i < |results| && !HeldBy(sent, i) :: results[i] == Unsent)
  }

  ghost predicate Within(request: seq<Indexed>, messages: seq<Message>) {
    forall j | 0 <= j < |request| ::
      request[j].index < |messages| && request[j].message == messages[request[j].index]
  }

  ghost predicate DistinctIndices(group: seq<Indexed>) {
    forall i, j | 0 <= i < j < |group| :: group[i].index != group[j].index
  }

  // The messages with a body, in order.
  function GroupOf(messages: seq<Message>, key: Body): seq<Indexed> {
    if messages == [] then []
    else
      var n := |messages| - 1;
      GroupOf(messages[..n], key) + if messages[n].body == key then [Indexed(n, messages[n])] else []
  }

  lemma HoldsAppend(group: seq<Indexed>, x: Indexed, i: nat)
    ensures Holds(group + [x], i) <==> Holds(group, i) || x.index == i
  {
    HoldsConcat(group, [x], i);
    assert [x][0].index == x.index;
  }

  // A group holds exactly the messages with its body.
  lemma {:induction false} GroupHolds(messages: seq<Message>, key: Body)
    ensures Within(GroupOf(messages, key), messages)
    ensures forall j | 0 <= j < |GroupOf(messages, key)| :: GroupOf(messages, key)[j].message.body == key
    ensures forall i: nat :: Holds(GroupOf(messages, key), i) <==> i < |messages| && messages[i].body == key
  {
    if messages != [] {
      var n := |messages| - 1;
      var shorter, x := GroupOf(messages[..n], key), Indexed(n, messages[n]);
      GroupHolds(messages[..n], key);
      forall i: nat ensures Holds(GroupOf(messages, key), i) <==> i < |messages| && messages[i].body == key {
        HoldsAppend(shorter, x, i);
        assert shorter + [] == shorter;
      }
    }
  }

  lemma {:induction false} GroupIsDistinct(messages: seq<Message>, key: Body)
    ensures DistinctIndices(GroupOf(messages, key))
  {
    if messages != [] {
      GroupIsDistinct(messages[..|messages| - 1], key);
      GroupHolds(messages[..|messages| - 1], key);
    }
  }

  lemma HoldsConcat(a: seq<Indexed>, b: seq<Indexed>, i: nat)
    ensures Holds(a + b, i) <==> Holds(a, i) || Holds(b, i)
  {
    if j :| 0 <= j < |a| && a[j].index == i {
      assert (a + b)[j].index == i;
    }
    if j :| 0 <= j < |b| && b[j].index == i {
      assert (a + b)[|a| + j].index == i;
    }
    if j :| 0 <= j < |a + b| && (a + b)[j].index == i {
      assert if j < |a| then a[j].index == i else b[j - |a|].index == i;
    }
  }

  lemma HeldByFirst(requests: seq<seq<Indexed>>, i: nat)
    requires requests != []
    ensures HeldBy(requests, i) <==> Holds(requests[0], i) || HeldBy(requests[1..], i)
  {
    if k :| 0 <= k < |requests[1..]| && Holds(requests[1..][k], i) {
      assert Holds(requests[k + 1], i);
    }
    if k :| 0 <= k < |requests| && Holds(requests[k], i) {
      assert k > 0 ==> Holds(requests[1..][k - 1], i);
    }
  }

  // What the requests hold together is what the group holds.
  lemma {:induction false} CutsHold(requests: seq<seq<Indexed>>, i: nat)
    ensures HeldBy(requests, i) <==> Holds(Concat(requests), i)
  {
    if requests != [] {
      HeldByFirst(requests, i);
      HoldsConcat(requests[0], Concat(requests[1..]), i);
      CutsHold(requests[1..], i);
    }
  }

  lemma DistinctParts(first: seq<Indexed>, rest: seq<Indexed>, i: nat)
    requires DistinctIndices(first + rest)
    ensures DistinctIndices(rest) && !(Holds(first, i) && Holds(rest, i))
  {
    var group := first + rest;
    assert forall j | 0 <= j < |first| :: first[j] == group[j];
    assert forall j | 0 <= j < |rest| :: rest[j] == group[|first| + j];
  }

  lemma HeldLater(requests: seq<seq<Indexed>>, l: nat, i: nat)
    requires 0 < l < |requests|
    ensures Holds(requests[l], i) ==> HeldBy(requests[1..], i)
  {
    assert requests[1..][l - 1] == requests[l];
  }

  // Cutting a group puts no message in two requests.
  lemma {:induction false} CutsAreDisjoint(requests: seq<seq<Indexed>>)
    requires DistinctIndices(Concat(requests))
    ensures Disjoint(requests)
  {
    if requests != [] {
      DistinctParts(requests[0], Concat(requests[1..]), 0);
      CutsAreDisjoint(requests[1..]);
      forall k, l, i | 0 <= k < l < |requests| && Holds(requests[k], i) ensures !Holds(requests[l], i) {
        DistinctParts(requests[0], Concat(requests[1..]), i);
        CutsHold(requests[1..], i);
        HeldLater(requests, l, i);
        assert k > 0 ==> requests[1..][k - 1] == requests[k] && requests[1..][l - 1] == requests[l];
      }
    }
  }

  // Writes the answer to a request to each of its messages.
  method Scatter(request: seq<Indexed>, response: Response, results: array<Outcome>)
    requires forall j | 0 <= j < |request| :: request[j].index < results.Length
    modifies results
    ensures forall i: nat | i < results.Length ::
              results[i] == if Holds(request, i) then Answered(response) else old(results[i])
  {
    for j := 0 to |request|
      invariant forall i: nat | i < results.Length ::
                  results[i] == if Holds(request[..j], i) then Answered(response) else old(results[i])
    {
      results[request[j].index] := Answered(response);
      forall i: nat ensures Holds(request[..j + 1], i) <==> Holds(request[..j], i) || i == request[j].index {
        assert request[..j + 1] == request[..j] + [request[j]];
        HoldsConcat(request[..j], [request[j]], i);
        assert [request[j]][0].index == request[j].index;
      }
    }
    assert request[..|request|] == request;
  }

  lemma HeldByMore(sent: seq<seq<Indexed>>, request: seq<Indexed>, i: nat)
    ensures HeldBy(sent + [request], i) <==> HeldBy(sent, i) || Holds(request, i)
  {
    var more := sent + [request];
    if k :| 0 <= k < |sent| && Holds(sent[k], i) {
      assert Holds(more[k], i);
    }
    if Holds(request, i) {
      assert Holds(more[|sent|], i);
    }
    if k :| 0 <= k < |more| && Holds(more[k], i) {
      assert k < |sent| ==> Holds(sent[k], i);
    }
  }

  lemma ScatteredMore(before: seq<Outcome>, after: seq<Outcome>, sent: seq<seq<Indexed>>,
                      request: seq<Indexed>, responses: nat -> Response)
    requires Scattered(before, sent, responses) && Disjoint(sent) && |after| == |before|
    requires forall i | Holds(request, i) :: !HeldBy(sent, i)
    requires forall i: nat | i < |after| ::
               after[i] == if Holds(request, i) then Answered(responses(|sent|)) else before[i]
    ensures Scattered(after, sent + [request], responses) && Disjoint(sent + [request])
  {
    var more := sent + [request];
    forall k: nat, i: nat | k < |more| && i < |after| && Holds(more[k], i)
      ensures after[i] == Answered(responses(k))
    {
      if k < |sent| {
        assert Holds(sent[k], i) && HeldBy(sent, i);
      }
    }
    forall i: nat | i < |after| && !HeldBy(more, i) ensures after[i] == Unsent {
      HeldByMore(sent, request, i);
    }
    forall k, l, i | 0 <= k < l < |more| && Holds(more[k], i) ensures !Holds(more[l], i) {
      assert Holds(sent[k], i) && HeldBy(sent, i);
    }
  }

  // What sending has done so far.
  ghost predicate Sound(results: seq<Outcome>, sent: seq<seq<Indexed>>, messages: seq<Message>,
                        responses: nat -> Response)
  {
    && |results| == |messages| && Scattered(results, sent, responses) && Disjoint(sent)
    && forall k | 0 <= k < |sent| :: sent[k] != [] && Fits(sent[k]) && Within(sent[k], messages) && OneBody(sent[k])
  }

  ghost predicate OneBody(request: seq<Indexed>) {
    forall j | 0 <= j < |request| :: request[j].message.body == request[0].message.body
  }

  lemma {:induction false} PieceWithin(requests: seq<seq<Indexed>>, k: nat, messages: seq<Message>, key: Body)
    requires k < |requests| && Within(Concat(requests), messages)
    requires forall j | 0 <= j < |Concat(requests)| :: Concat(requests)[j].message.body == key
    ensures Within(requests[k], messages)
    ensures forall j | 0 <= j < |requests[k]| :: requests[k][j].message.body == key
  {
    var group, first, rest := Concat(requests), requests[0], Concat(requests[1..]);
    assert forall j | 0 <= j < |first| :: first[j] == group[j];
    assert forall j | 0 <= j < |rest| :: rest[j] == group[|first| + j];
    if k > 0 {
      PieceWithin(requests[1..], k - 1, messages, key);
    }
  }

  // The c-th of the requests of a group holds no message that has been sent.
  lemma {:induction false} NextIsNew(sent: seq<seq<Indexed>>, requests: seq<seq<Indexed>>, group: seq<Indexed>, c: nat)
    requires c < |requests| && Concat(requests) == group && DistinctIndices(group)
    requires forall i | Holds(group, i) :: !HeldBy(sent, i)
    ensures forall i | Holds(requests[c], i) :: !HeldBy(sent + requests[..c], i)
  {
    CutsAreDisjoint(requests);
    forall i | Holds(requests[c], i) ensures !HeldBy(sent + requests[..c], i) {
      CutsHold(requests, i);
      assert HeldBy(requests, i);
      HeldByConcat(sent, requests[..c], i);
      assert forall k | 0 <= k < c :: requests[..c][k] == requests[k];
    }
  }

  lemma HeldByConcat(a: seq<seq<Indexed>>, b: seq<seq<Indexed>>, i: nat)
    ensures HeldBy(a + b, i) <==> HeldBy(a, i) || HeldBy(b, i)
  {
    var c := a + b;
    if k :| 0 <= k < |a| && Holds(a[k], i) {
      assert Holds(c[k], i);
    }
    if k :| 0 <= k < |b| && Holds(b[k], i) {
      assert Holds(c[|a| + k], i);
    }
    if k :| 0 <= k < |c| && Holds(c[k], i) {
      assert if k < |a| then Holds(a[k], i) else Holds(b[k - |a|], i);
    }
  }

  // Sends one request and scatters its answer.
  method SendChunk(request: seq<Indexed>, messages: seq<Message>, results: array<Outcome>,
                   sent: seq<seq<Indexed>>, responses: nat -> Response)
    requires Sound(results[..], sent, messages, responses)
    requires request != [] && Fits(request) && Within(request, messages) && OneBody(request)
    requires forall i | Holds(request, i) :: !HeldBy(sent, i)
    modifies results
    ensures Sound(results[..], sent + [request], messages, responses)
  {
    ghost var before := results[..];
    Scatter(request, responses(|sent|), results);
    ScatteredMore(before, results[..], sent, request, responses);
  }

  // Sends one group, in as few requests as the limits allow.
  method SendGroup(group: seq<Indexed>, ghost key: Body, messages: seq<Message>, results: array<Outcome>,
                   sent: seq<seq<Indexed>>, responses: nat -> Response)
    returns (requests: seq<seq<Indexed>>)
    requires Sound(results[..], sent, messages, responses)
    requires group == GroupOf(messages, key) && forall i | Holds(group, i) :: !HeldBy(sent, i)
    modifies results
    ensures Sound(results[..], sent + requests, messages, responses)
    ensures Splits(requests, group) && Full(requests) && forall c | 0 <= c < |requests| :: requests[c] != []
  {
    GroupHolds(messages, key);
    GroupIsDistinct(messages, key);
    requests := SplitRequests(group);
    assert sent + requests[..0] == sent;
    for c := 0 to |requests|
      invariant Sound(results[..], sent + requests[..c], messages, responses)
    {
      PieceWithin(requests, c, messages, key);
      NextIsNew(sent, requests, group, c);
      SendChunk(requests[c], messages, results, sent + requests[..c], responses);
      assert sent + requests[..c + 1] == sent + requests[..c] + [requests[c]];
    }
    assert requests[..|requests|] == requests;
  }

  ghost predicate DistinctBodies(order: seq<Body>) {
    forall i, j | 0 <= i < j < |order| :: order[i] != order[j]
  }

  // The bodies as they first appear.
  function BodiesOf(messages: seq<Message>): seq<Body> {
    if messages == [] then []
    else
      var n := |messages| - 1;
      var before := BodiesOf(messages[..n]);
      if messages[n].body in before then before else before + [messages[n].body]
  }

  lemma {:induction false} BodiesListed(messages: seq<Message>)
    ensures DistinctBodies(BodiesOf(messages))
    ensures forall key :: key in BodiesOf(messages) <==>
                          exists i :: 0 <= i < |messages| && messages[i].body == key
  {
    if messages != [] {
      var n := |messages| - 1;
      BodiesListed(messages[..n]);
      forall key ensures key in BodiesOf(messages) <==> exists i :: 0 <= i < |messages| && messages[i].body == key {
        assert key in BodiesOf(messages) <==> key in BodiesOf(messages[..n]) || key == messages[n].body;
        if i :| 0 <= i < n && messages[..n][i].body == key {
          assert messages[i].body == key;
        }
        if i :| 0 <= i < |messages| && messages[i].body == key {
          assert i < n ==> messages[..n][i].body == key;
        }
      }
    }
  }

  // The position of the first message with a body.
  ghost predicate FirstAt(messages: seq<Message>, key: Body, i: nat)
    requires i < |messages|
  {
    messages[i].body == key && forall j | 0 <= j < i :: messages[j].body != key
  }

  // The bodies are listed in the order of their first messages.
  lemma {:induction false} BodiesInOrder(messages: seq<Message>, a: nat, b: nat, i: nat, j: nat)
    requires a < b < |BodiesOf(messages)| && i < |messages| && j < |messages|
    requires FirstAt(messages, BodiesOf(messages)[a], i) && FirstAt(messages, BodiesOf(messages)[b], j)
    ensures i < j
  {
    var n := |messages| - 1;
    var before := BodiesOf(messages[..n]);
    if b < |before| {
      BodiesListed(messages[..n]);
      InPrefix(messages, before[a], i);
      InPrefix(messages, before[b], j);
      BodiesInOrder(messages[..n], a, b, i, j);
    } else {
      BodiesListed(messages[..n]);
      InPrefix(messages, before[a], i);
      assert forall q | 0 <= q < n :: messages[..n][q].body in before;
    }
  }

  lemma InPrefix(messages: seq<Message>, key: Body, i: nat)
    requires messages != [] && i < |messages| && FirstAt(messages, key, i)
    requires key in BodiesOf(messages[..|messages| - 1])
    ensures i < |messages| - 1 && FirstAt(messages[..|messages| - 1], key, i)
  {
    var n := |messages| - 1;
    BodiesListed(messages[..n]);
    var k :| 0 <= k < n && messages[..n][k].body == key;
    assert messages[k].body == key;
    assert forall j | 0 <= j < i :: messages[..n][j] == messages[j];
  }

  // A group is in the order of its messages.
  lemma {:induction false} GroupAscends(messages: seq<Message>, key: Body)
    ensures forall a, b | 0 <= a < b < |GroupOf(messages, key)| ::
              GroupOf(messages, key)[a].index < GroupOf(messages, key)[b].index
  {
    if messages != [] {
      GroupAscends(messages[..|messages| - 1], key);
      GroupHolds(messages[..|messages| - 1], key);
    }
  }

  // The group of each body, and no others.
  ghost predicate Grouped(groups: map<Body, seq<Indexed>>, messages: seq<Message>) {
    && (forall key :: key in groups <==> key in BodiesOf(messages))
    && (forall key | key in groups :: groups[key] == GroupOf(messages, key))
  }

  lemma {:induction false} GroupedMore(before: map<Body, seq<Indexed>>, groups: map<Body, seq<Indexed>>,
                    shorter: seq<Message>, messages: seq<Message>, m: Message)
    requires messages == shorter + [m] && Grouped(before, shorter)
    requires groups == before[m.body := (if m.body in before then before[m.body] else [])
                                        + [Indexed(|shorter|, m)]]
    ensures Grouped(groups, messages)
    ensures BodiesOf(messages) == BodiesOf(shorter) + if m.body in before then [] else [m.body]
  {
    assert messages[..|shorter|] == shorter;
    if m.body !in before {
      BodiesListed(shorter);
      NoGroup(shorter, m.body);
    }
  }

  // Groups the messages by body, and lists the bodies.
  method Group(messages: seq<Message>) returns (groups: map<Body, seq<Indexed>>, order: seq<Body>)
    ensures order == BodiesOf(messages) && Grouped(groups, messages)
  {
    groups, order := map[], [];
    for i := 0 to |messages|
      invariant order == BodiesOf(messages[..i]) && Grouped(groups, messages[..i])
    {
      var key := messages[i].body;
      ghost var before := groups;
      if key !in groups {
        order := order + [key];
        groups := groups[key := []];
      }
      groups := groups[key := groups[key] + [Indexed(i, messages[i])]];
      assert messages[..i + 1] == messages[..i] + [messages[i]];
      GroupedMore(before, groups, messages[..i], messages[..i + 1], messages[i]);
    }
    assert messages[..|messages|] == messages;
  }

  lemma {:induction false} NoGroup(messages: seq<Message>, key: Body)
    requires forall j | 0 <= j < |messages| :: messages[j].body != key
    ensures GroupOf(messages, key) == []
  {
    if messages != [] {
      NoGroup(messages[..|messages| - 1], key);
    }
  }

  // The requests by body: those for order[o] are parts[o], cut from its group, each full.
  ghost predicate Batched(sent: seq<seq<Indexed>>, order: seq<Body>, parts: seq<seq<seq<Indexed>>>,
                          messages: seq<Message>)
  {
    && |parts| == |order| && sent == Concat(parts)
    && forall o | 0 <= o < |order| :: FullPart(parts[o], GroupOf(messages, order[o]))
  }

  ghost predicate FullPart(part: seq<seq<Indexed>>, group: seq<Indexed>) {
    Splits(part, group) && Full(part) && forall c | 0 <= c < |part| :: part[c] != []
  }

  lemma {:induction false} ConcatIsLonger(parts: seq<seq<seq<Indexed>>>, others: seq<seq<seq<Indexed>>>)
    requires |parts| == |others| && forall o | 0 <= o < |parts| :: |parts[o]| <= |others[o]|
    ensures |Concat(parts)| <= |Concat(others)|
  {
    if parts != [] {
      ConcatIsLonger(parts[1..], others[1..]);
    }
  }

  // No other way of cutting the groups within the limits sends fewer requests.
  lemma {:induction false} SendsFewest(sent: seq<seq<Indexed>>, order: seq<Body>, parts: seq<seq<seq<Indexed>>>,
                    others: seq<seq<seq<Indexed>>>, messages: seq<Message>)
    requires Batched(sent, order, parts, messages) && |others| == |order|
    requires forall o | 0 <= o < |order| :: Splits(others[o], GroupOf(messages, order[o]))
    ensures |sent| <= |Concat(others)|
  {
    forall o | 0 <= o < |order| ensures |parts[o]| <= |others[o]| {
      assert FullPart(parts[o], GroupOf(messages, order[o]));
      SplitRequestsIsOptimal(parts[o], others[o], GroupOf(messages, order[o]));
    }
    ConcatIsLonger(parts, others);
  }

  lemma {:induction false} BatchedMore(sent: seq<seq<Indexed>>, order: seq<Body>, o: nat, parts: seq<seq<seq<Indexed>>>,
                    messages: seq<Message>, requests: seq<seq<Indexed>>)
    requires o < |order| && Batched(sent, order[..o], parts, messages)
    requires FullPart(requests, GroupOf(messages, order[o]))
    ensures Batched(sent + requests, order[..o + 1], parts + [requests], messages)
  {
    ConcatAppend(parts, requests);
    assert order[..o + 1] == order[..o] + [order[o]];
  }

  // Sends the groups one after another.
  method SendGroups(messages: seq<Message>, groups: map<Body, seq<Indexed>>, order: seq<Body>,
                    results: array<Outcome>, responses: nat -> Response)
    returns (sent: seq<seq<Indexed>>, ghost parts: seq<seq<seq<Indexed>>>)
    requires Sound(results[..], [], messages, responses) && DistinctBodies(order)
    requires forall key | key in order :: key in groups && groups[key] == GroupOf(messages, key)
    modifies results
    ensures Sound(results[..], sent, messages, responses)
    ensures forall i: nat :: HeldBy(sent, i) <==> i < |messages| && messages[i].body in order
    ensures Batched(sent, order, parts, messages)
  {
    sent, parts := [], [];
    for o := 0 to |order|
      invariant Sound(results[..], sent, messages, responses)
      invariant forall i: nat :: HeldBy(sent, i) <==> i < |messages| && messages[i].body in order[..o]
      invariant Batched(sent, order[..o], parts, messages)
    {
      var key := order[o];
      assert key in order;
      GroupHolds(messages, key);
      assert key !in order[..o];
      var requests := SendGroup(groups[key], key, messages, results, sent, responses);
      SentMore(messages, sent, requests, order, o);
      BatchedMore(sent, order, o, parts, messages, requests);
      sent, parts := sent + requests, parts + [requests];
    }
    assert order[..|order|] == order;
  }

  /** Sends the messages, unless one of them is invalid. `responses(k)` is what the provider
      answers the k-th request; `sent` are the requests made. */
  method Send(messages: seq<Message>, legal: Message -> bool, responses: nat -> Response)
    returns (valid: bool, results: array<Outcome>, sent: seq<seq<Indexed>>,
             ghost parts: seq<seq<seq<Indexed>>>)
    // `legal` stands for the checks on a recipient's address and a subject, which parse text.
    ensures valid <==> forall i | 0 <= i < |messages| ::
                         legal(messages[i]) && (messages[i].body.text != "" || messages[i].body.html != "")
    ensures !valid ==> sent == []
    // Every request holds messages of one body within the limits; no message is in two, and
    // each message has the answer to the request it is in.
    ensures valid ==> Sound(results[..], sent, messages, responses)
    ensures valid ==> forall i: nat | i < |messages| :: HeldBy(sent, i)
    // The requests go body by body, in the order the bodies first appear, as few as they can be.
    ensures valid ==> Batched(sent, BodiesOf(messages), parts, messages)
  {
    results := new Outcome[|messages|](_ => Unsent);
    sent, parts := [], [];
    for i := 0 to |messages|
      invariant forall j | 0 <= j < i ::
                  legal(messages[j]) && (messages[j].body.text != "" || messages[j].body.html != "")
    {
      if !legal(messages[i]) || (messages[i].body.text == "" && messages[i].body.html == "") {
        return false, results, [], [];
      }
    }
    var groups, order := Group(messages);
    BodiesListed(messages);
    sent, parts := SendGroups(messages, groups, order, results, responses);
    valid := true;
  }

  lemma {:induction false} SentMore(messages: seq<Message>, sent: seq<seq<Indexed>>, requests: seq<seq<Indexed>>,
                 order: seq<Body>, o: nat)
    requires o < |order| && Concat(requests) == GroupOf(messages, order[o])
    requires forall i: nat :: HeldBy(sent, i) <==> i < |messages| && messages[i].body in order[..o]
    ensures forall i: nat :: HeldBy(sent + requests, i) <==> i < |messages| && messages[i].body in order[..o + 1]
  {
    GroupHolds(messages, order[o]);
    assert order[..o + 1] == order[..o] + [order[o]];
    forall i: nat ensures HeldBy(sent + requests, i) <==> i < |messages| && messages[i].body in order[..o + 1] {
      HeldByConcat(sent, requests, i);
      CutsHold(requests, i);
    }
  }
}
