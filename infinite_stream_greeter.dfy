/**
 * The subscriber fan-out of the infinite-stream greeter
 * (`InfiniteStreamGreeterImpl`): a server-streaming call subscribes under
 * its greeting with a new channel of capacity 100, and a broadcast sends
 * every subscriber a reply carrying its own name, dropping (by name) and
 * closing every subscriber whose send fails.
 *
 * Channels are values in the service's table and subscribers map names to
 * positions in it. Each launched send is an atomic step (`SendTo`); a
 * broadcast runs them one after the other, in an order the model leaves
 * open.
 */
module InfiniteStream {
  import opened Channels
  import opened Greeter

  /** The buffer bound of every subscriber channel, `Channel<GreetReply>(100)`. */
  const SubscriberCapacity: nat := 100

  /** The reply a broadcast of `word` sends to the subscriber called `name`. */
  function Personal(word: string, name: string): GreetReply {
    GreetReply(word + " " + name)
  }

  /** No two names share a channel. */
  predicate Injective(subs: map<string, nat>) {
    forall a, b :: a in subs && b in subs && a != b ==> subs[a] != subs[b]
  }

  /** Every subscribed channel is in the table. */
  predicate InTable(subs: map<string, nat>, table: seq<Channel<GreetReply>>) {
    forall k :: k in subs ==> subs[k] < |table|
  }

  /** The subscribers whose channel is still open. */
  function Pruned(subs: map<string, nat>, table: seq<Channel<GreetReply>>): (r: map<string, nat>)
    requires InTable(subs, table)
    ensures forall k :: k in r <==> k in subs && !table[subs[k]].closed
    ensures forall k :: k in r ==> r[k] == subs[k]
  {
    map k | k in subs && !table[subs[k]].closed :: subs[k]
  }

  /** When no subscribed channel is closed, pruning keeps every subscriber. */
  lemma PrunedAllOpen(subs: map<string, nat>, table: seq<Channel<GreetReply>>)
    requires InTable(subs, table)
    requires forall k :: k in subs ==> !table[subs[k]].closed
    ensures Pruned(subs, table) == subs
  {
    assert Pruned(subs, table).Keys == subs.Keys;
  }

  /**
   * One launched send of a broadcast, on values, for the pair (`name`,
   * `channel`) read from the map when the broadcast began. The send appends
   * the reply to an open channel; on a closed one it throws, and the handler
   * removes `name` from the map, whatever channel it holds by then, and
   * closes `channel` (which changes nothing on a closed channel).
   */
  function SendStep(subs: map<string, nat>, table: seq<Channel<GreetReply>>,
                    name: string, channel: nat, reply: GreetReply): (r: (map<string, nat>, seq<Channel<GreetReply>>))
    requires channel < |table| && (!table[channel].closed ==> !table[channel].Full())
    ensures table[channel].closed ==> r == (subs - {name}, table)
    ensures !table[channel].closed ==> r == (subs, table[channel := table[channel].Send(reply)])
  {
    if table[channel].closed then
      assert table[channel := table[channel].Close()] == table;
      (subs - {name}, table[channel := table[channel].Close()])
    else (subs, table[channel := table[channel].Send(reply)])
  }

  /** No subscriber uses channel `id`. */
  predicate Unsubscribed(subs: map<string, nat>, id: nat) {
    forall k :: k in subs ==> subs[k] != id
  }

  /** A send would not suspend: no open subscribed channel is full. */
  predicate Roomy(subs: map<string, nat>, table: seq<Channel<GreetReply>>)
    requires InTable(subs, table)
  {
    forall k :: k in subs && !table[subs[k]].closed ==> !table[subs[k]].Full()
  }

  /**
   * Midway through a broadcast of `word` over `subs` and `table`: the sends
   * to the names outside `pending` have run, giving `cur` and `curTable`.
   */
  ghost predicate Midway(subs: map<string, nat>, table: seq<Channel<GreetReply>>, word: string,
                   pending: set<string>, cur: map<string, nat>, curTable: seq<Channel<GreetReply>>)
    requires InTable(subs, table) && Roomy(subs, table)
  {
    pending <= subs.Keys && |curTable| == |table| &&
    (forall k :: k in cur <==> k in subs && (k in pending || !table[subs[k]].closed)) &&
    (forall k :: k in cur ==> cur[k] == subs[k]) &&
    (forall k :: k in subs && k !in pending ==> curTable[subs[k]] == table[subs[k]].Send(Personal(word, k))) &&
    (forall k :: k in pending ==> curTable[subs[k]] == table[subs[k]]) &&
    (forall id :: 0 <= id < |table| && Unsubscribed(subs, id) ==> curTable[id] == table[id])
  }

  /** Running one more pending send keeps the broadcast midway, with one name fewer pending. */
  lemma MidwayStep(subs: map<string, nat>, table: seq<Channel<GreetReply>>, word: string,
                   pending: set<string>, cur: map<string, nat>, curTable: seq<Channel<GreetReply>>, k: string)
    requires Injective(subs) && InTable(subs, table) && Roomy(subs, table)
    requires Midway(subs, table, word, pending, cur, curTable) && k in pending
    ensures subs[k] < |curTable| && (!curTable[subs[k]].closed ==> !curTable[subs[k]].Full())
    ensures var next := SendStep(cur, curTable, k, subs[k], Personal(word, k));
      Midway(subs, table, word, pending - {k}, next.0, next.1)
  {
  }

  /** Before any send the broadcast is midway with every name pending. */
  lemma MidwayStart(subs: map<string, nat>, table: seq<Channel<GreetReply>>, word: string)
    requires InTable(subs, table) && Roomy(subs, table)
    ensures Midway(subs, table, word, subs.Keys, subs, table)
  {
  }

  /** With nothing pending, the names left are the pruned map and every subscribed channel got its send. */
  lemma MidwayDone(subs: map<string, nat>, table: seq<Channel<GreetReply>>, word: string,
                   cur: map<string, nat>, curTable: seq<Channel<GreetReply>>)
    requires InTable(subs, table) && Roomy(subs, table)
    requires Midway(subs, table, word, {}, cur, curTable)
    ensures cur == Pruned(subs, table)
  {
    assert cur.Keys == Pruned(subs, table).Keys;
  }

  /**
   * The `forEach` loop of a broadcast, on values: every subscriber's send
   * runs once, in an arbitrary order. Exactly the subscribers with an open
   * channel remain, each subscribed channel ends with its own reply appended
   * (a closed one is unchanged), and no other channel is touched.
   */
  method Broadcast(subs: map<string, nat>, table: seq<Channel<GreetReply>>, word: string)
    returns (subs': map<string, nat>, table': seq<Channel<GreetReply>>)
    requires Injective(subs) && InTable(subs, table) && Roomy(subs, table)
    ensures |table'| == |table|
    ensures subs' == Pruned(subs, table)
    ensures forall k :: k in subs ==> table'[subs[k]] == table[subs[k]].Send(Personal(word, k))
    ensures forall id :: 0 <= id < |table| && Unsubscribed(subs, id) ==> table'[id] == table[id]
  {
    subs', table' := subs, table;
    var pending := subs.Keys;
    MidwayStart(subs, table, word);
    while pending != {}
      invariant Midway(subs, table, word, pending, subs', table')
      decreases |pending|
    {
      var k :| k in pending;
      MidwayStep(subs, table, word, pending, subs', table', k);
      var next := SendStep(subs', table', k, subs[k], Personal(word, k));
      subs', table' := next.0, next.1;
      pending := pending - {k};
    }
    MidwayDone(subs, table, word, subs', table');
  }

  class InfiniteStreamGreeter {
    /** `subscribers`: the channel of each subscribed name. */
    var subscribers: map<string, nat>
    /** Every channel the service has created, in creation order; a channel's position is its identity. */
    var channels: seq<Channel<GreetReply>>

    /** Subscribed channels exist, are distinct, and have the subscriber bound. */
    ghost predicate Valid()
      reads this
    {
      Injective(subscribers) && InTable(subscribers, channels) &&
      forall k :: k in subscribers ==> channels[subscribers[k]].capacity == Bounded(SubscriberCapacity)
    }

    constructor ()
      ensures Valid() && subscribers == map[] && channels == []
    {
      subscribers := map[];
      channels := [];
    }

    /**
     * `greetServerStream` (subscribe): a new channel of capacity 100 is stored
     * under the request's greeting. A channel stored earlier under the same
     * name is dropped from the map and left open.
     */
    method GreetServerStream(request: GreetRequest) returns (channel: nat)
      requires Valid()
      modifies this
      ensures Valid()
      ensures channel == |old(channels)| && channels == old(channels) + [Open(Bounded(SubscriberCapacity))]
      ensures subscribers == old(subscribers)[request.greeting := channel]
    {
      channel := |channels|;
      channels := channels + [Open(Bounded(SubscriberCapacity))];
      subscribers := subscribers[request.greeting := channel];
    }

    /**
     * The environment's step for a client that abandons its stream: the
     * transport closes the channel; the map is not touched.
     */
    method Cancel(channel: nat)
      requires Valid() && channel < |channels|
      modifies this
      ensures Valid() && subscribers == old(subscribers)
      ensures channels == old(channels)[channel := old(channels)[channel].Close()]
    {
      channels := channels[channel := channels[channel].Close()];
    }

    /** One launched send of a broadcast (`SendStep`) as a step of the service. */
    method SendTo(name: string, channel: nat, reply: GreetReply)
      requires Valid() && channel < |channels|
      requires !channels[channel].closed ==> !channels[channel].Full()
      modifies this
      ensures Valid()
      ensures (subscribers, channels) == SendStep(old(subscribers), old(channels), name, channel, reply)
    {
      var next := SendStep(subscribers, channels, name, channel, reply);
      subscribers, channels := next.0, next.1;
    }

    /**
     * `greetAllSubscribers(word)`: every subscriber is sent "word name", as
     * `Broadcast` says; afterwards every remaining subscriber's channel is
     * open.
     */
    method GreetAllSubscribers(word: string)
      requires Valid()
      requires Roomy(subscribers, channels)
      modifies this
      ensures Valid() && |channels| == |old(channels)|
      ensures subscribers == Pruned(old(subscribers), old(channels))
      ensures forall k :: k in old(subscribers) ==>
        channels[old(subscribers)[k]] == old(channels)[old(subscribers)[k]].Send(Personal(word, k))
      ensures forall id :: 0 <= id < |channels| && Unsubscribed(old(subscribers), id) ==> channels[id] == old(channels)[id]
      ensures forall k :: k in subscribers ==> !channels[subscribers[k]].closed
    {
      subscribers, channels := Broadcast(subscribers, channels, word);
    }
  }

  /** The subscriber channel after the given replies were sent to it, still open. */
  function Received(replies: seq<GreetReply>): Channel<GreetReply> {
    Channel(replies, false, Bounded(SubscriberCapacity))
  }

  /** Two clients `a` and `b` subscribe and a broadcast of `word` reaches both, keeping both. */
  method SubscribeBothAndGreet(a: string, b: string, word: string) returns (svc: InfiniteStreamGreeter)
    requires a != b
    ensures fresh(svc) && svc.Valid()
    ensures svc.subscribers == map[a := 0, b := 1]
    ensures svc.channels == [Received([Personal(word, a)]), Received([Personal(word, b)])]
  {
    svc := new InfiniteStreamGreeter();
    var r := svc.GreetServerStream(GreetRequest(a));
    var g := svc.GreetServerStream(GreetRequest(b));
    var open := Open(Bounded(SubscriberCapacity));
    var subs := map[a := 0, b := 1];
    assert svc.subscribers == subs && svc.channels == [open, open];
    svc.GreetAllSubscribers(word);
    assert a in subs && b in subs;
    assert svc.channels[0] == open.Send(Personal(word, a));
    assert svc.channels[1] == open.Send(Personal(word, b));
    assert [] + [Personal(word, a)] == [Personal(word, a)] && [] + [Personal(word, b)] == [Personal(word, b)];
    PrunedAllOpen(subs, [open, open]);
  }

  /** `b` abandons its stream; the next broadcast of `word` drops `b` and reaches only `a`. */
  method AbandonAndGreet(svc: InfiniteStreamGreeter, a: string, b: string, word: string)
    requires a != b && svc.Valid() && svc.subscribers == map[a := 0, b := 1] && |svc.channels| == 2
    requires !svc.channels[0].closed && !svc.channels[0].Full()
    modifies svc
    ensures svc.Valid() && svc.subscribers == map[a := 0]
    ensures svc.channels == [old(svc.channels)[0].Send(Personal(word, a)), old(svc.channels)[1].Close()]
  {
    svc.Cancel(1);
    var subs := svc.subscribers;
    svc.GreetAllSubscribers(word);
    assert a in subs && b in subs;
    assert svc.subscribers.Keys == {a};
  }

  /**
   * A broadcast when `name` is the only subscriber and its channel is open:
   * the reply is appended to that channel and nothing else changes.
   */
  method GreetSole(svc: InfiniteStreamGreeter, name: string, id: nat, word: string)
    requires svc.Valid() && svc.subscribers == map[name := id]
    requires id < |svc.channels| && !svc.channels[id].closed && !svc.channels[id].Full()
    modifies svc
    ensures svc.Valid() && svc.subscribers == map[name := id]
    ensures svc.channels == old(svc.channels)[id := old(svc.channels)[id].Send(Personal(word, name))]
  {
    svc.GreetAllSubscribers(word);
    assert svc.subscribers.Keys == {name};
  }

  /**
   * The abandon scenario: "rouz" and "igor" subscribe, a broadcast of
   * "Hello" reaches both and keeps both; "igor" abandons, and the next four
   * broadcasts ("Hola 0" … "Hola 3") prune "igor" and reach "rouz" in order.
   */
  method ClientAbandon() returns (keysAfterHello: set<string>, keysAtEnd: set<string>,
                                  rouz: seq<GreetReply>, igor: seq<GreetReply>)
    ensures keysAfterHello == {"rouz", "igor"} && keysAtEnd == {"rouz"}
    ensures rouz == [Personal("Hello", "rouz"), Personal("Hola 0", "rouz"), Personal("Hola 1", "rouz"),
                     Personal("Hola 2", "rouz"), Personal("Hola 3", "rouz")]
    ensures igor == [Personal("Hello", "igor")]
  {
    var svc := SubscribeBothAndGreet("rouz", "igor", "Hello");
    keysAfterHello := svc.subscribers.Keys;
    AbandonAndGreet(svc, "rouz", "igor", "Hola 0");
    var sent := [Personal("Hello", "rouz"), Personal("Hola 0", "rouz")];
    assert svc.channels[0].buffer == sent;
    GreetSole(svc, "rouz", 0, "Hola 1");
    sent := sent + [Personal("Hola 1", "rouz")];
    assert svc.channels[0].buffer == sent;
    GreetSole(svc, "rouz", 0, "Hola 2");
    sent := sent + [Personal("Hola 2", "rouz")];
    assert svc.channels[0].buffer == sent;
    GreetSole(svc, "rouz", 0, "Hola 3");
    sent := sent + [Personal("Hola 3", "rouz")];
    assert svc.channels[0].buffer == sent;
    keysAtEnd := svc.subscribers.Keys;
    rouz := svc.channels[0].buffer;
    igor := svc.channels[1].buffer;
  }

  /**
   * Pruning is by name only: a client abandons its first subscription and
   * subscribes again under the same name; the still-pending send to the
   * first channel then fails and removes the name, so the live second
   * channel is no longer subscribed, yet it stays open.
   */
  method StaleSendDropsResubscriber() returns (subscribedBefore: bool, subscribedAfter: bool, secondOpen: bool)
    ensures subscribedBefore && !subscribedAfter && secondOpen
  {
    var svc := new InfiniteStreamGreeter();
    var first := svc.GreetServerStream(GreetRequest("rouz"));
    svc.Cancel(first);
    var second := svc.GreetServerStream(GreetRequest("rouz"));
    subscribedBefore := "rouz" in svc.subscribers && svc.subscribers["rouz"] == second;
    svc.SendTo("rouz", first, Personal("Hello", "rouz"));
    subscribedAfter := "rouz" in svc.subscribers;
    secondOpen := !svc.channels[second].closed;
  }
}
