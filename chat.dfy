/**
 * The chat hub of the example chat server (`ChatService`): a registry of
 * connected clients in registration order, sessions that register on their
 * first message and relay every later one to the clients with a different
 * name, and a shutdown that closes everything.
 *
 * Coroutines are modelled as atomic sequential steps: `Join` is the
 * handshake, `Relay` one iteration of the session's receive loop, `Leave`
 * the `finally` block, and `Chat` one whole session run without
 * interleaving.
 */
module Chat {
  import opened Wrappers
  import opened Channels

  /** `ChatMessage`: the name the sender gives and the text. */
  datatype ChatMessage = ChatMessage(from: string, message: string)

  /** `google.protobuf.Timestamp`. */
  datatype Timestamp = Timestamp(seconds: int, nanos: int)

  /** `ChatMessageFromService`: a received message, wrapped unchanged, with a server timestamp. */
  datatype Delivered = Delivered(timestamp: Timestamp, message: ChatMessage)

  /**
   * One inbound message together with the two `System.nanoTime()` readings
   * the server takes while stamping it (the clock is a parameter).
   */
  datatype Inbound = Inbound(message: ChatMessage, firstReading: int, secondReading: int)

  /**
   * `data class Client`: equality is on the name AND the channel, which is
   * identified by its position in the hub's channel table.
   */
  datatype Client = Client(name: string, channel: nat)

  /** The value seen through one registry entry: its name and its channel's state. */
  datatype Peer = Peer(name: string, buffer: seq<Delivered>, closed: bool)

  const NanosPerSecond: int := 1_000_000_000

  /** Kotlin `Long` division, which truncates toward zero. */
  function Quot(a: int, b: int): (q: int)
    requires b > 0
    ensures a >= 0 ==> 0 <= b * q <= a < b * q + b
    ensures a < 0 ==> b * q - b < a <= b * q <= 0
  {
    if a >= 0 then
      DivBounds(a, b);
      a / b
    else
      DivBounds(-a, b);
      -((-a) / b)
  }

  /** Euclidean division of a natural number, and its negation. */
  lemma DivBounds(n: int, b: int)
    requires n >= 0 && b > 0
    ensures 0 <= b * (n / b) <= n < b * (n / b) + b
    ensures b * -(n / b) == -(b * (n / b))
  {
    var q, r := n / b, n % b;
    assert n == b * q + r && 0 <= r < b;
    assert q >= 0;
  }

  /** Kotlin `Long` remainder, which takes the sign of the dividend. */
  function Rem(a: int, b: int): (r: int)
    requires b > 0
    ensures -b < r < b
    ensures a == b * Quot(a, b) + r
    ensures a >= 0 ==> 0 <= r
    ensures a < 0 ==> r <= 0
  {
    a - b * Quot(a, b)
  }

  /**
   * `createMessage`: the request wrapped unchanged; seconds come from the
   * first clock reading, nanos from the second (the source reads the clock
   * twice).
   */
  function CreateMessage(request: ChatMessage, firstReading: int, secondReading: int): (d: Delivered)
    ensures d.message == request
    ensures -NanosPerSecond < d.timestamp.nanos < NanosPerSecond
  {
    Delivered(
      Timestamp(Quot(firstReading, NanosPerSecond), Rem(secondReading, NanosPerSecond)),
      request)
  }

  /** When both readings agree on a non-negative time, the timestamp denotes exactly that time. */
  lemma TimestampDenotesReading(request: ChatMessage, t: int)
    requires t >= 0
    ensures var ts := CreateMessage(request, t, t).timestamp;
      0 <= ts.nanos < NanosPerSecond && ts.seconds * NanosPerSecond + ts.nanos == t
  {
    assert Rem(t, NanosPerSecond) == t - NanosPerSecond * Quot(t, NanosPerSecond);
  }

  function Stamp(r: Inbound): Delivered {
    CreateMessage(r.message, r.firstReading, r.secondReading)
  }

  // ---------------------------------------------------------------------
  // Fan-out of one message, on values

  /** A send to this peer throws: it is a recipient and its channel is closed. */
  predicate Blocks(p: Peer, from: string) {
    p.name != from && p.closed
  }

  /** Position of the first recipient whose send throws, or the number of peers if none does. */
  function FirstBlocked(peers: seq<Peer>, from: string): (k: nat)
    ensures k <= |peers|
    ensures forall j :: 0 <= j < k ==> !Blocks(peers[j], from)
    ensures k < |peers| ==> Blocks(peers[k], from)
  {
    if peers == [] then 0
    else if Blocks(peers[0], from) then 0
    else 1 + FirstBlocked(peers[1..], from)
  }

  /** The first blocking position is the one that blocks with none blocking before it. */
  lemma FirstBlockedAt(peers: seq<Peer>, from: string, k: nat)
    requires k <= |peers|
    requires forall j :: 0 <= j < k ==> !Blocks(peers[j], from)
    requires k < |peers| ==> Blocks(peers[k], from)
    ensures FirstBlocked(peers, from) == k
  {
  }

  /** One peer's part of a fan-out: a recipient gets `m` appended, the sender's namesakes nothing. */
  function Offer(p: Peer, from: string, m: Delivered): Peer {
    if p.name != from then p.(buffer := p.buffer + [m]) else p
  }

  /** The first k peers have had their offer of `m`, the rest are as they were. */
  function OfferUpTo(peers: seq<Peer>, from: string, m: Delivered, k: nat): (r: seq<Peer>)
    requires k <= |peers|
    ensures |r| == |peers|
  {
    seq(|peers|, i requires 0 <= i < |peers| => if i < k then Offer(peers[i], from, m) else peers[i])
  }

  /** One more offer changes exactly the next position. */
  lemma OfferOneMore(peers: seq<Peer>, from: string, m: Delivered, k: nat)
    requires k < |peers|
    ensures OfferUpTo(peers, from, m, k + 1) == OfferUpTo(peers, from, m, k)[k := Offer(peers[k], from, m)]
  {
  }

  /**
   * The registry after relaying `m` from `from`: the peers before the first
   * blocking one get their offer, that one and all after it are untouched
   * (the exception leaves the loop).
   */
  function Deliver(peers: seq<Peer>, from: string, m: Delivered): (r: seq<Peer>)
    ensures |r| == |peers|
  {
    OfferUpTo(peers, from, m, FirstBlocked(peers, from))
  }

  predicate NoneClosed(peers: seq<Peer>) {
    forall i :: 0 <= i < |peers| ==> !peers[i].closed
  }

  /** A message never reaches a peer that has the sender's name, and no peer changes name or flag. */
  lemma DeliverSkipsSender(peers: seq<Peer>, from: string, m: Delivered)
    ensures var r := Deliver(peers, from, m);
      forall i :: 0 <= i < |peers| ==>
        r[i].name == peers[i].name && r[i].closed == peers[i].closed &&
        (peers[i].name == from ==> r[i] == peers[i])
  {
  }

  /** With no blocking recipient, every peer with another name gets exactly `m` appended. */
  lemma DeliverReachesEveryOther(peers: seq<Peer>, from: string, m: Delivered)
    requires forall j :: 0 <= j < |peers| ==> !Blocks(peers[j], from)
    ensures FirstBlocked(peers, from) == |peers|
    ensures var r := Deliver(peers, from, m);
      forall i :: 0 <= i < |peers| && peers[i].name != from ==> r[i].buffer == peers[i].buffer + [m]
  {
  }

  /**
   * A closed recipient at position k aborts the fan-out: recipients after it
   * miss the message.
   */
  lemma DeliverStopsAtClosed(peers: seq<Peer>, from: string, m: Delivered, k: nat)
    requires k < |peers| && Blocks(peers[k], from)
    requires forall j :: 0 <= j < k ==> !Blocks(peers[j], from)
    ensures FirstBlocked(peers, from) == k
    ensures var r := Deliver(peers, from, m);
      forall i :: k <= i < |peers| ==> r[i] == peers[i]
  {
  }

  /** Two messages from one sender reach each open recipient in the order they were relayed. */
  lemma DeliverPreservesOrder(peers: seq<Peer>, from: string, m1: Delivered, m2: Delivered)
    requires NoneClosed(peers)
    ensures var r := Deliver(Deliver(peers, from, m1), from, m2);
      forall i :: 0 <= i < |peers| && peers[i].name != from ==> r[i].buffer == peers[i].buffer + [m1, m2]
  {
    var r1 := Deliver(peers, from, m1);
    assert NoneClosed(r1);
    assert FirstBlocked(peers, from) == |peers|;
    assert FirstBlocked(r1, from) == |peers|;
  }

  // ---------------------------------------------------------------------
  // What a whole session sends to one recipient

  /** The stamped messages of `rs` that a client called `name` is sent, in arrival order. */
  function Inbox(rs: seq<Inbound>, name: string): (out: seq<Delivered>)
    ensures |out| <= |rs|
  {
    if rs == [] then []
    else
      Inbox(rs[..|rs| - 1], name) + Step(rs[|rs| - 1], name)
  }

  /** What one inbound message contributes to the inbox of a client called `name`. */
  function Step(r: Inbound, name: string): seq<Delivered> {
    if r.message.from != name then [Stamp(r)] else []
  }

  /** Every message in the inbox came from someone with another name, unchanged. */
  lemma {:induction false} InboxOnlyFromOthers(rs: seq<Inbound>, name: string)
    ensures forall d :: d in Inbox(rs, name) ==>
      d.message.from != name && exists r :: r in rs && d.message == r.message
  {
    if rs != [] {
      InboxOnlyFromOthers(rs[..|rs| - 1], name);
      var last := rs[|rs| - 1];
      forall d | d in Inbox(rs, name)
        ensures d.message.from != name && exists r :: r in rs && d.message == r.message
      {
        if d in Inbox(rs[..|rs| - 1], name) {
          var r :| r in rs[..|rs| - 1] && d.message == r.message;
          assert r in rs;
        } else {
          assert d == Stamp(last);
          assert last in rs;
        }
      }
    }
  }

  /** The inbox of a prefix of the stream is a prefix of the inbox of the stream. */
  lemma {:induction false} InboxGrows(rs: seq<Inbound>, name: string, a: nat, b: nat)
    requires a <= b <= |rs|
    ensures Inbox(rs[..a], name) <= Inbox(rs[..b], name)
    decreases b - a
  {
    if a < b {
      InboxGrows(rs, name, a, b - 1);
      assert rs[..b][..b - 1] == rs[..b - 1];
    }
  }

  /** Step lemma: the inbox of `rs[..t+1]`. */
  lemma InboxStep(rs: seq<Inbound>, name: string, t: nat)
    requires t < |rs|
    ensures Inbox(rs[..t + 1], name) == Inbox(rs[..t], name) + Step(rs[t], name)
  {
    assert rs[..t + 1][..t] == rs[..t];
  }

  /**
   * One relay seen from one recipient whose buffer was `base` plus the inbox
   * of the first t-1 messages: it gets the t-th message's step in full when
   * the relay reached it, and in any case stays within the whole inbox.
   */
  lemma InboxAdvance(base: seq<Delivered>, rs: seq<Inbound>, name: string, t: nat,
                     before: seq<Delivered>, after: seq<Delivered>, reached: bool)
    requires 1 <= t <= |rs|
    requires before == base + Inbox(rs[..t - 1], name)
    requires after == if reached then before + Step(rs[t - 1], name) else before
    ensures reached ==> after == base + Inbox(rs[..t], name)
    ensures base <= after <= base + Inbox(rs, name)
  {
    var prev := Inbox(rs[..t - 1], name);
    var done := Inbox(rs[..t], name);
    InboxStep(rs, name, t - 1);
    InboxGrows(rs, name, t, |rs|);
    assert rs[..|rs|] == rs;
    AppendIsPrefix(prev, Step(rs[t - 1], name));
    PrefixUnder(base, prev, done);
    PrefixUnder(base, done, Inbox(rs, name));
    if reached {
      assert after == base + done;
    } else {
      PrefixTransitive(after, base + done, base + Inbox(rs, name));
    }
  }

  /** Extending both sides of a prefix by the same front keeps it a prefix. */
  lemma PrefixUnder<T>(base: seq<T>, a: seq<T>, b: seq<T>)
    requires a <= b
    ensures base <= base + a <= base + b
  {
    assert b == a + b[|a|..];
    assert base + b == (base + a) + b[|a|..];
    AppendIsPrefix(base + a, b[|a|..]);
    AppendIsPrefix(base, a);
  }

  lemma PrefixTransitive<T>(a: seq<T>, b: seq<T>, c: seq<T>)
    requires a <= b <= c
    ensures a <= c
  {
    assert c[..|b|][..|a|] == c[..|a|];
  }

  /** `a` is a prefix of `a + b`. */
  lemma AppendIsPrefix<T>(a: seq<T>, b: seq<T>)
    ensures a <= a + b
  {
    assert (a + b)[..|a|] == a;
  }

  /**
   * Between two views of the same registry, each peer kept its name and flag
   * and was sent a prefix of its inbox for `rs`.
   */
  predicate SentPrefixes(before: seq<Peer>, after: seq<Peer>, rs: seq<Inbound>) {
    |before| == |after| &&
    forall i :: 0 <= i < |before| ==>
      after[i].name == before[i].name && after[i].closed == before[i].closed &&
      before[i].buffer <= after[i].buffer <= before[i].buffer + Inbox(rs, before[i].name)
  }

  /** Between two views, each peer was sent its whole inbox for `rs`. */
  predicate SentAll(before: seq<Peer>, after: seq<Peer>, rs: seq<Inbound>) {
    |before| == |after| &&
    forall i :: 0 <= i < |before| ==> after[i].buffer == before[i].buffer + Inbox(rs, before[i].name)
  }

  /** Both relations hold of every prefix of the registry. */
  lemma SentPrefixOfRegistry(before: seq<Peer>, after: seq<Peer>, rs: seq<Inbound>, n: nat)
    requires n <= |before| && SentPrefixes(before, after, rs)
    ensures SentPrefixes(before[..n], after[..n], rs)
    ensures SentAll(before, after, rs) ==> SentAll(before[..n], after[..n], rs)
  {
  }

  /**
   * One iteration of a session's receive loop, on values: relaying the t-th
   * message keeps every peer within its inbox, completes the inbox of the
   * first t+1 messages when nobody blocked, and nobody blocks when no
   * channel is closed.
   */
  lemma {:induction false} RelayStep(start: seq<Peer>, ps: seq<Peer>, rest: seq<Inbound>, t: nat)
    requires t < |rest|
    requires SentPrefixes(start, ps, rest) && SentAll(start, ps, rest[..t])
    ensures var r := rest[t];
      var after := Deliver(ps, r.message.from, Stamp(r));
      SentPrefixes(start, after, rest) &&
      (FirstBlocked(ps, r.message.from) == |ps| ==> SentAll(start, after, rest[..t + 1])) &&
      (NoneClosed(start) ==> FirstBlocked(ps, r.message.from) == |ps|)
  {
    var r := rest[t];
    var after := Deliver(ps, r.message.from, Stamp(r));
    var k := FirstBlocked(ps, r.message.from);
    forall i | 0 <= i < |start|
      ensures after[i].name == start[i].name && after[i].closed == start[i].closed
      ensures k == |ps| ==> after[i].buffer == start[i].buffer + Inbox(rest[..t + 1], start[i].name)
      ensures start[i].buffer <= after[i].buffer <= start[i].buffer + Inbox(rest, start[i].name)
    {
      InboxAdvance(start[i].buffer, rest, start[i].name, t + 1, ps[i].buffer, after[i].buffer, i < k);
    }
    if NoneClosed(start) {
      assert NoneClosed(ps);
    }
  }

  /**
   * A session's receive loop on values: relay the messages of `rs` in
   * arrival order; the first relay that meets a closed recipient throws,
   * which leaves the loop after that partial fan-out. The flag says whether
   * the stream was relayed to its end.
   */
  function Session(ps: seq<Peer>, rs: seq<Inbound>): (r: (seq<Peer>, bool))
    ensures |r.0| == |ps|
    ensures rs == [] ==> r == (ps, true)
    decreases |rs|
  {
    if rs == [] then (ps, true)
    else
      var from := rs[0].message.from;
      var next := Deliver(ps, from, Stamp(rs[0]));
      if FirstBlocked(ps, from) < |ps| then (next, false) else Session(next, rs[1..])
  }

  /**
   * A whole session on values: the registry `before` with the session's
   * fresh, empty, open entry appended runs the receive loop, and the entry
   * is then removed again. The others were sent a prefix of their inboxes,
   * all of it when the loop ran to the end, which it does when no channel
   * was closed; then the session's own entry holds its whole inbox.
   */
  lemma SessionOutcome(before: seq<Peer>, name: string, rest: seq<Inbound>)
    ensures var r := Session(before + [Peer(name, [], false)], rest);
      var final := r.0[..|before|];
      SentPrefixes(before, final, rest) &&
      (r.1 ==> SentAll(before, final, rest) && r.0[|before|].buffer == Inbox(rest, name)) &&
      (NoneClosed(before) ==> r.1)
  {
    var start := before + [Peer(name, [], false)];
    SessionSent(start, rest);
    assert start[..|before|] == before;
    if NoneClosed(before) {
      assert NoneClosed(start);
    }
  }

  /**
   * The loop from its t-th message on, started from a registry that was
   * sent all of the first t inboxes, sends every peer a prefix of its inbox,
   * the whole of it when it runs to the end, which it always does when no
   * channel was closed.
   */
  lemma {:induction false} SessionSentFrom(start: seq<Peer>, ps: seq<Peer>, rest: seq<Inbound>, t: nat)
    requires t <= |rest|
    requires SentPrefixes(start, ps, rest) && SentAll(start, ps, rest[..t])
    ensures var r := Session(ps, rest[t..]);
      SentPrefixes(start, r.0, rest) &&
      (r.1 ==> SentAll(start, r.0, rest)) &&
      (NoneClosed(start) ==> r.1)
    decreases |rest| - t
  {
    if t == |rest| {
      assert rest[t..] == [] && rest[..t] == rest;
    } else {
      var r := rest[t];
      var next := Deliver(ps, r.message.from, Stamp(r));
      assert rest[t..][0] == r && rest[t..][1..] == rest[t + 1..];
      RelayStep(start, ps, rest, t);
      if FirstBlocked(ps, r.message.from) == |ps| {
        SessionSentFrom(start, next, rest, t + 1);
      }
    }
  }

  /** What the whole loop sends: a prefix of every inbox, all of it when the loop ran to the end. */
  lemma SessionSent(ps: seq<Peer>, rs: seq<Inbound>)
    ensures var r := Session(ps, rs);
      SentPrefixes(ps, r.0, rs) && (r.1 ==> SentAll(ps, r.0, rs)) && (NoneClosed(ps) ==> r.1)
  {
    forall i | 0 <= i < |ps| ensures ps[i].buffer <= ps[i].buffer + Inbox(rs, ps[i].name) {
      AppendIsPrefix(ps[i].buffer, Inbox(rs, ps[i].name));
    }
    assert forall i :: 0 <= i < |ps| ==> ps[i].buffer + Inbox(rs[..0], ps[i].name) == ps[i].buffer;
    assert rs[0..] == rs;
    SessionSentFrom(ps, ps, rs, 0);
  }

  /** Once a relay has failed, no later message is relayed: the loop has ended. */
  lemma {:induction false} SessionStops(ps: seq<Peer>, rs: seq<Inbound>, more: seq<Inbound>)
    requires !Session(ps, rs).1
    ensures Session(ps, rs + more) == Session(ps, rs)
    decreases |rs|
  {
    var from := rs[0].message.from;
    assert (rs + more)[0] == rs[0] && (rs + more)[1..] == rs[1..] + more;
    if FirstBlocked(ps, from) == |ps| {
      SessionStops(Deliver(ps, from, Stamp(rs[0])), rs[1..], more);
    }
  }

  /** While every relay succeeds, the loop over `rs + more` is the loop over `rs`, then over `more`. */
  lemma {:induction false} SessionRuns(ps: seq<Peer>, rs: seq<Inbound>, more: seq<Inbound>)
    requires Session(ps, rs).1
    ensures Session(ps, rs + more) == Session(Session(ps, rs).0, more)
    decreases |rs|
  {
    if rs == [] {
      assert rs + more == more;
    } else {
      var from := rs[0].message.from;
      assert (rs + more)[0] == rs[0] && (rs + more)[1..] == rs[1..] + more;
      SessionRuns(Deliver(ps, from, Stamp(rs[0])), rs[1..], more);
    }
  }

  /**
   * Two messages from a third client, with the first recipient open and the
   * second closed: the first message reaches the open one and the relay
   * fails at the closed one, so the second message is never relayed.
   */
  lemma SessionAbortsAtClosed(a: string, b: string, r1: Inbound, r2: Inbound)
    requires r1.message.from != a && r1.message.from != b
    ensures var ps := [Peer(a, [], false), Peer(b, [], true)];
      Session(ps, [r1, r2]) == ([Peer(a, [Stamp(r1)], false), Peer(b, [], true)], false)
  {
    var ps := [Peer(a, [], false), Peer(b, [], true)];
    var from := r1.message.from;
    assert FirstBlocked(ps[1..], from) == 0;
    assert FirstBlocked(ps, from) == 1;
    var d := Deliver(ps, from, Stamp(r1));
    assert |d| == 2 && d[0] == Offer(ps[0], from, Stamp(r1)) && d[1] == ps[1];
    assert [] + [Stamp(r1)] == [Stamp(r1)];
    assert Deliver(ps, from, Stamp(r1)) == [Peer(a, [Stamp(r1)], false), Peer(b, [], true)];
  }

  // ---------------------------------------------------------------------
  // Registry removal

  /** `LinkedHashSet.remove`: every entry equal to `x` goes, the others keep their order. */
  function Without<T(==)>(s: seq<T>, x: T): (r: seq<T>)
    ensures |r| <= |s|
  {
    if s == [] then []
    else if s[0] == x then Without(s[1..], x)
    else [s[0]] + Without(s[1..], x)
  }

  /** Removal keeps exactly the entries different from `x`. */
  lemma {:induction false} WithoutKeeps<T>(s: seq<T>, x: T, y: T)
    ensures y in Without(s, x) <==> y in s && y != x
  {
    if s != [] {
      WithoutKeeps(s[1..], x, y);
      assert s == [s[0]] + s[1..];
    }
  }

  /** Removing an absent entry changes nothing. */
  lemma {:induction false} WithoutAbsent<T>(s: seq<T>, x: T)
    requires x !in s
    ensures Without(s, x) == s
  {
    if s != [] {
      WithoutAbsent(s[1..], x);
    }
  }

  /** In a sequence without repetitions, removal cuts out exactly the one position holding `x`. */
  lemma {:induction false} WithoutCutsOne<T>(s: seq<T>, k: nat, x: T)
    requires k < |s| && s[k] == x
    requires forall j :: 0 <= j < |s| && j != k ==> s[j] != x
    ensures Without(s, x) == s[..k] + s[k + 1..]
  {
    if k == 0 {
      WithoutAbsent(s[1..], x);
    } else {
      WithoutCutsOne(s[1..], k - 1, x);
      assert s[1..][..k - 1] == s[1..k];
      assert s[1..][k..] == s[k + 1..];
      assert [s[0]] + s[1..k] == s[..k];
    }
  }

  predicate DistinctChannels(cs: seq<Client>) {
    forall i, j :: 0 <= i < j < |cs| ==> cs[i].channel != cs[j].channel
  }

  /** Removal keeps channels pairwise distinct. */
  lemma {:induction false} WithoutKeepsDistinct(cs: seq<Client>, c: Client)
    requires DistinctChannels(cs)
    ensures DistinctChannels(Without(cs, c))
  {
    if cs != [] {
      assert DistinctChannels(cs[1..]) by {
        forall i, j | 0 <= i < j < |cs[1..]| ensures cs[1..][i].channel != cs[1..][j].channel {
          assert cs[1..][i] == cs[i + 1] && cs[1..][j] == cs[j + 1];
        }
      }
      WithoutKeepsDistinct(cs[1..], c);
      if cs[0] != c {
        var rest := Without(cs[1..], c);
        forall j | 0 <= j < |rest| ensures cs[0].channel != rest[j].channel {
          WithoutKeeps(cs[1..], c, rest[j]);
          assert rest[j] in cs[1..];
          var k :| 0 <= k < |cs[1..]| && cs[1..][k] == rest[j];
          assert cs[k + 1] == rest[j];
        }
      }
    }
  }

  // ---------------------------------------------------------------------
  // The service

  /** Every registry entry names a channel of the table. */
  predicate Owned(cs: seq<Client>, table: seq<Channel<Delivered>>) {
    forall i :: 0 <= i < |cs| ==> cs[i].channel < |table|
  }

  /** The registry seen as values: names with the state of their channels. */
  function View(cs: seq<Client>, table: seq<Channel<Delivered>>): (ps: seq<Peer>)
    requires Owned(cs, table)
    ensures |ps| == |cs|
    ensures forall i :: 0 <= i < |cs| ==>
      ps[i] == Peer(cs[i].name, table[cs[i].channel].buffer, table[cs[i].channel].closed)
  {
    seq(|cs|, i requires 0 <= i < |cs| => Peer(cs[i].name, table[cs[i].channel].buffer, table[cs[i].channel].closed))
  }

  /** Replacing one registered channel changes exactly that entry's view. */
  lemma ViewUpdate(cs: seq<Client>, table: seq<Channel<Delivered>>, i: nat, ch: Channel<Delivered>)
    requires Owned(cs, table) && DistinctChannels(cs) && i < |cs|
    ensures Owned(cs, table[cs[i].channel := ch])
    ensures View(cs, table[cs[i].channel := ch]) == View(cs, table)[i := Peer(cs[i].name, ch.buffer, ch.closed)]
  {
  }

  /** Some registry entry uses channel `id`. */
  predicate Registered(cs: seq<Client>, id: nat) {
    exists i :: 0 <= i < |cs| && cs[i].channel == id
  }

  /** The two tables agree on every channel outside the registry. */
  predicate SameUnregistered(cs: seq<Client>, t1: seq<Channel<Delivered>>, t2: seq<Channel<Delivered>>) {
    |t1| == |t2| && forall id :: 0 <= id < |t1| && !Registered(cs, id) ==> t1[id] == t2[id]
  }

  /**
   * The end of a session on values: the session's entry `me` was appended to
   * the registry `cs` with a new channel at the end of the table `orig`, the
   * loop left `mid`, and the `finally` block closed `me`'s channel. The rest
   * of the registry sees `mid`, and channels outside it are as in `orig`.
   */
  lemma SessionEnd(cs: seq<Client>, me: Client, orig: seq<Channel<Delivered>>,
                   mid: seq<Channel<Delivered>>, final: seq<Channel<Delivered>>)
    requires Owned(cs, orig) && me.channel == |orig|
    requires SameUnregistered(cs + [me], orig + [Open(Unlimited)], mid)
    requires final == mid[me.channel := mid[me.channel].Close()]
    ensures Owned(cs, final) && Owned(cs + [me], mid)
    ensures View(cs, final) == View(cs + [me], mid)[..|cs|]
    ensures forall id :: 0 <= id < |orig| && !Registered(cs, id) ==> final[id] == orig[id]
  {
    forall id | 0 <= id < |orig| && !Registered(cs, id) ensures final[id] == orig[id] {
      assert !Registered(cs + [me], id);
    }
  }

  /**
   * The fan-out loop of one relay, on the channel table: send `message`, in
   * registry order, to every entry whose name differs from `from`, and stop
   * at the first closed recipient. The table changes only at registered
   * channels, and the registry's view changes as `Deliver` says.
   */
  method FanOut(cs: seq<Client>, table: seq<Channel<Delivered>>, from: string, message: Delivered)
    returns (out: seq<Channel<Delivered>>, ok: bool)
    requires Owned(cs, table) && DistinctChannels(cs)
    requires forall i :: 0 <= i < |cs| ==> table[cs[i].channel].capacity == Unlimited
    ensures SameUnregistered(cs, table, out) && Owned(cs, out)
    ensures forall id :: 0 <= id < |out| ==> out[id].capacity == table[id].capacity
    ensures View(cs, out) == Deliver(View(cs, table), from, message)
    ensures ok <==> FirstBlocked(View(cs, table), from) == |cs|
  {
    ghost var before := View(cs, table);
    out := table;
    var i := 0;
    ok := true;
    while i < |cs|
      invariant 0 <= i <= |cs|
      invariant ok
      invariant SameUnregistered(cs, table, out) && Owned(cs, out)
      invariant forall id :: 0 <= id < |out| ==> out[id].capacity == table[id].capacity
      invariant forall j :: 0 <= j < i ==> !Blocks(before[j], from)
      invariant View(cs, out) == OfferUpTo(before, from, message, i)
    {
      var c := cs[i];
      OfferOneMore(before, from, message, i);
      if c.name != from {
        ok := !out[c.channel].closed;
        if !ok {
          assert View(cs, out)[i] == before[i];
          break;
        }
        ViewUpdate(cs, out, i, out[c.channel].Send(message));
        out := out[c.channel := out[c.channel].Send(message)];
      } else {
        assert Offer(before[i], from, message) == OfferUpTo(before, from, message, i)[i];
      }
      i := i + 1;
    }
    FirstBlockedAt(before, from, i);
  }

  class ChatService {
    /** `clientChannels`: a LinkedHashSet, so insertion order and no repeated entry. */
    var clients: seq<Client>
    /** Every channel the hub has created, in creation order; a channel's position is its identity. */
    var channels: seq<Channel<Delivered>>

    /** Every registered channel exists, is its own (so no entry repeats) and is unbounded. */
    ghost predicate Valid()
      reads this
    {
      Owned(clients, channels) && DistinctChannels(clients) &&
      forall i :: 0 <= i < |clients| ==> channels[clients[i].channel].capacity == Unlimited
    }

    constructor ()
      ensures Valid() && clients == [] && channels == []
    {
      clients := [];
      channels := [];
    }

    /**
     * `getNames`: one name per registered client, in registration order; two
     * clients that share a name both appear.
     */
    function GetNames(): (names: seq<string>)
      reads this
      ensures |names| == |clients|
      ensures forall i :: 0 <= i < |clients| ==> names[i] == clients[i].name
    {
      seq(|clients|, i reads this requires 0 <= i < |clients| => clients[i].name)
    }

    /**
     * The handshake of `chat`: the first message only supplies the name; a
     * new unbounded channel is registered under it at the end, and the
     * hello itself is sent to nobody.
     */
    method Join(hello: ChatMessage) returns (channel: nat)
      requires Valid()
      modifies this
      ensures Valid()
      ensures channel == |old(channels)| && channels == old(channels) + [Open(Unlimited)]
      ensures clients == old(clients) + [Client(hello.from, channel)]
      ensures View(clients, channels) == View(old(clients), old(channels)) + [Peer(hello.from, [], false)]
    {
      channel := |channels|;
      channels := channels + [Open(Unlimited)];
      clients := clients + [Client(hello.from, channel)];
    }

    /**
     * One iteration of the session loop: stamp the request and send it, in
     * registry order, to every client whose name differs from the request's
     * `from`. A closed recipient makes the send throw, which ends the loop
     * (`ok == false`); later recipients miss the message. Channels outside
     * the registry are not touched.
     */
    method Relay(request: ChatMessage, firstReading: int, secondReading: int) returns (ok: bool)
      requires Valid()
      modifies this
      ensures Valid() && clients == old(clients) && SameUnregistered(clients, old(channels), channels)
      ensures View(clients, channels) ==
        Deliver(View(clients, old(channels)), request.from, CreateMessage(request, firstReading, secondReading))
      ensures ok <==> FirstBlocked(View(clients, old(channels)), request.from) == |clients|
    {
      var message := CreateMessage(request, firstReading, secondReading);
      channels, ok := FanOut(clients, channels, request.from, message);
    }

    /**
     * The `finally` block of `chat`: remove exactly this session's entry
     * (other clients with the same name stay) and close its channel unless
     * it is already closed.
     */
    method Leave(client: Client)
      requires Valid() && client.channel < |channels|
      modifies this
      ensures Valid()
      ensures clients == Without(old(clients), client)
      ensures channels == old(channels)[client.channel := old(channels)[client.channel].Close()]
    {
      WithoutKeepsDistinct(clients, client);
      var rest := Without(clients, client);
      forall i | 0 <= i < |rest|
        ensures rest[i].channel < |channels| && channels[rest[i].channel].capacity == Unlimited
      {
        WithoutKeeps(clients, client, rest[i]);
      }
      clients := rest;
      if !channels[client.channel].closed {
        channels := channels[client.channel := channels[client.channel].Close()];
      }
    }

    /**
     * The environment's step for a client that cancels its call: the
     * transport closes that client's outbound channel; the entry stays
     * registered until its session ends.
     */
    method Cancel(i: nat)
      requires Valid() && i < |clients|
      modifies this
      ensures Valid() && clients == old(clients)
      ensures channels == old(channels)[clients[i].channel := old(channels)[clients[i].channel].Close()]
      ensures View(clients, channels) == View(clients, old(channels))[i := View(clients, old(channels))[i].(closed := true)]
    {
      var id := clients[i].channel;
      channels := channels[id := channels[id].Close()];
    }

    /**
     * The `for` loop of the session coroutine: relay each message in arrival
     * order until the stream ends (`ok`) or a send throws, exactly as
     * `Session` says. Every client is sent a prefix of its inbox, all of it
     * when the loop ran to the end, which it always does when no registered
     * channel is closed.
     */
    method ReceiveLoop(rest: seq<Inbound>) returns (ok: bool)
      requires Valid()
      modifies this
      ensures Valid() && clients == old(clients) && SameUnregistered(clients, old(channels), channels)
      ensures (View(clients, channels), ok) == Session(View(clients, old(channels)), rest)
      ensures SentPrefixes(View(clients, old(channels)), View(clients, channels), rest)
      ensures NoneClosed(View(clients, old(channels))) ==> ok
      ensures ok ==> SentAll(View(clients, old(channels)), View(clients, channels), rest)
    {
      ghost var start := View(clients, channels);
      var t := 0;
      ok := true;
      while t < |rest| && ok
        invariant 0 <= t <= |rest|
        invariant Valid() && clients == old(clients) && SameUnregistered(clients, old(channels), channels)
        invariant Session(start, rest) ==
          if ok then Session(View(clients, channels), rest[t..]) else (View(clients, channels), false)
      {
        var r := rest[t];
        assert rest[t..][0] == r && rest[t..][1..] == rest[t + 1..];
        ok := Relay(r.message, r.firstReading, r.secondReading);
        t := t + 1;
      }
      assert ok ==> rest[t..] == [];
      SessionSent(start, rest);
    }

    /**
     * `chat`, one whole session without interleaving: no message means no
     * registration at all; otherwise join under the first message's name,
     * run the receive loop over the later messages, then leave. The registry
     * ends as it began; the other clients and the session's own channel end
     * as `Session` leaves them; every other client has been sent a prefix of its
     * inbox, and all of it when no channel was closed; the session's own
     * channel ends closed, holding everything sent to it.
     */
    method Chat(requests: seq<Inbound>) returns (outbound: Option<nat>)
      requires Valid()
      modifies this
      ensures Valid() && clients == old(clients)
      ensures outbound.None? <==> requests == []
      ensures requests == [] ==> channels == old(channels)
      ensures outbound.Some? ==>
        outbound.value == |old(channels)| && |channels| == |old(channels)| + 1 && channels[outbound.value].closed
      ensures requests != [] ==> SentPrefixes(View(clients, old(channels)), View(clients, channels), requests[1..])
      ensures requests != [] && NoneClosed(View(clients, old(channels))) ==>
        SentAll(View(clients, old(channels)), View(clients, channels), requests[1..]) &&
        channels[outbound.value].buffer == Inbox(requests[1..], requests[0].message.from)
      ensures requests != [] ==>
        var last := Session(View(clients, old(channels)) + [Peer(requests[0].message.from, [], false)], requests[1..]).0;
        View(clients, channels) == last[..|clients|] && channels[outbound.value].buffer == last[|clients|].buffer
      ensures forall id :: 0 <= id < |old(channels)| && !Registered(clients, id) ==> channels[id] == old(channels)[id]
    {
      if requests == [] {
        return None;
      }
      ghost var before := View(clients, channels);
      var channel := Join(requests[0].message);
      var me := Client(requests[0].message.from, channel);
      ghost var start := View(clients, channels);
      assert start == before + [Peer(me.name, [], false)];
      var ok := ReceiveLoop(requests[1..]);
      ghost var last := View(clients, channels);
      assert last == Session(start, requests[1..]).0;
      ghost var mid := channels;
      ghost var n := |before|;
      assert Without(old(clients) + [me], me) == old(clients) by {
        WithoutCutsOne(old(clients) + [me], n, me);
        assert (old(clients) + [me])[..n] == old(clients);
      }
      assert clients[n] == me;
      assert last[n].buffer == mid[channel].buffer;
      Leave(me);
      assert channels[channel].buffer == mid[channel].buffer;
      SessionEnd(old(clients), me, old(channels), mid, channels);
      assert View(clients, channels) == last[..n];
      SessionOutcome(before, me.name, requests[1..]);
      outbound := Some(channel);
    }

    /**
     * `shutdown`: close every registered channel, then empty the registry.
     * On an empty registry it changes nothing.
     */
    method Shutdown()
      requires Valid()
      modifies this
      ensures Valid() && clients == [] && |channels| == |old(channels)|
      ensures forall id :: 0 <= id < |channels| ==>
        channels[id] == if Registered(old(clients), id) then old(channels)[id].Close() else old(channels)[id]
    {
      var table := channels;
      var i := 0;
      while i < |clients|
        modifies {}
        invariant 0 <= i <= |clients| && |table| == |channels|
        invariant forall id :: 0 <= id < |table| ==>
          table[id] == if Registered(clients[..i], id) then channels[id].Close() else channels[id]
      {
        var id := clients[i].channel;
        table := table[id := table[id].Close()];
        i := i + 1;
      }
      assert clients[..i] == clients;
      channels := table;
      clients := [];
    }
  }

  /** Shutting down twice leaves the same state as shutting down once. */
  method ShutdownTwice(hub: ChatService)
    requires hub.Valid()
    modifies hub
    ensures hub.Valid() && hub.clients == [] && |hub.channels| == |old(hub.channels)|
    ensures forall id :: 0 <= id < |hub.channels| ==>
      hub.channels[id] == if Registered(old(hub.clients), id) then old(hub.channels)[id].Close() else old(hub.channels)[id]
  {
    hub.Shutdown();
    hub.Shutdown();
  }
}
