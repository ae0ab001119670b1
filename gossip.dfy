/**
 * The in-process gossip network the tests run on: each node owns an
 * `InMemoryGossip` holding its subscriptions, and all of them are registered
 * with one `InMemoryGossipDiscovery` under the node's id. Delivering a
 * message means calling every callback subscribed to its type; what a
 * callback then does is outside this model, so every delivery returns the
 * calls it makes instead.
 */
module Gossip {
  import opened Common

  /** A subscriber's callback, by identity. */
  datatype Callback = Callback(id: nat)

  /** The payload shapes of src/gossip/Payload.ts. */
  datatype Payload =
    | PrePreparePayload(block: Block, view: int, term: int)
    | PreparePayload(blockHash: string, view: int, term: int)
    | ViewChangePayload(newView: int)
    | NewViewPayload(view: int)

  /** One entry of the `subscriptions` map, in insertion order. */
  datatype Subscription = Subscription(token: nat, message: string, cb: Callback)

  /** One call `cb(senderId, payload)`, made for the subscription `token`. */
  datatype Invocation = Invocation(token: nat, cb: Callback, senderId: string, payload: Option<Payload>)

  predicate TokensIncreasing(subs: seq<Subscription>) {
    forall i, j :: 0 <= i < j < |subs| ==> subs[i].token < subs[j].token
  }

  /** `subscriptions.delete(token)`: every other entry, in the same order. */
  function Without(subs: seq<Subscription>, token: nat): (r: seq<Subscription>)
    ensures forall s :: s in r <==> s in subs && s.token != token
    ensures |r| <= |subs|
  {
    if subs == [] then []
    else
      var last := subs[|subs| - 1];
      Without(subs[..|subs| - 1], token) + (if last.token == token then [] else [last])
  }

  /** Deleting keeps the surviving tokens in increasing order. */
  lemma {:induction false} WithoutKeepsIncreasing(subs: seq<Subscription>, token: nat)
    requires TokensIncreasing(subs)
    ensures TokensIncreasing(Without(subs, token))
  {
    if subs != [] {
      var init := subs[..|subs| - 1];
      var last := subs[|subs| - 1];
      WithoutKeepsIncreasing(init, token);
      var w := Without(init, token);
      forall s | s in w ensures s.token < last.token {
        var k :| 0 <= k < |init| && init[k] == s;
        assert subs[k] == s;
      }
    }
  }

  /** Deleting a token no entry holds leaves the subscriptions as they were. */
  lemma {:induction false} WithoutUnknownToken(subs: seq<Subscription>, token: nat)
    requires forall s :: s in subs ==> s.token != token
    ensures Without(subs, token) == subs
  {
    if subs != [] {
      var init := subs[..|subs| - 1];
      var last := subs[|subs| - 1];
      assert subs == init + [last];
      assert forall s :: s in init ==> s in subs;
      WithoutUnknownToken(init, token);
      assert last in subs;
      assert Without(subs, token) == Without(init, token) + [last];
    }
  }

  /** Unsubscribing the token a subscribe just returned undoes that subscribe. */
  lemma SubscribeThenUnsubscribe(subs: seq<Subscription>, token: nat, message: string, cb: Callback)
    requires forall s :: s in subs ==> s.token < token
    ensures Without(subs + [Subscription(token, message, cb)], token) == subs
  {
    assert (subs + [Subscription(token, message, cb)])[..|subs|] == subs;
    WithoutUnknownToken(subs, token);
  }

  /** The calls delivering `message` makes: one per subscription to it, in subscription order. */
  function Deliveries(subs: seq<Subscription>, message: string, senderId: string, payload: Option<Payload>): (r: seq<Invocation>)
    ensures forall s :: s in subs && s.message == message ==> Invocation(s.token, s.cb, senderId, payload) in r
    ensures forall inv :: inv in r ==>
              exists s :: s in subs && s.message == message && inv == Invocation(s.token, s.cb, senderId, payload)
    ensures |r| <= |subs|
  {
    if subs == [] then []
    else
      var init := subs[..|subs| - 1];
      var last := subs[|subs| - 1];
      assert forall s :: s in subs <==> s in init || s == last by {
        assert subs == init + [last];
      }
      Deliveries(init, message, senderId, payload) +
        (if last.message == message then [Invocation(last.token, last.cb, senderId, payload)] else [])
  }

  predicate InTokenOrder(calls: seq<Invocation>) {
    forall i, j :: 0 <= i < j < |calls| ==> calls[i].token < calls[j].token
  }

  /** Calls only come from the given subscriptions, so their tokens obey any bound those obey. */
  lemma DeliveriesBelow(subs: seq<Subscription>, message: string, senderId: string, payload: Option<Payload>, bound: nat)
    requires forall s :: s in subs ==> s.token < bound
    ensures forall inv :: inv in Deliveries(subs, message, senderId, payload) ==> inv.token < bound
  {
    forall inv | inv in Deliveries(subs, message, senderId, payload) ensures inv.token < bound {
      var s :| s in subs && s.message == message && inv == Invocation(s.token, s.cb, senderId, payload);
    }
  }

  /** Appending at most one call whose token exceeds every earlier one keeps the tokens increasing. */
  lemma AppendInTokenOrder(r: seq<Invocation>, tail: seq<Invocation>, bound: nat)
    requires InTokenOrder(r) && forall inv :: inv in r ==> inv.token < bound
    requires tail == [] || (|tail| == 1 && tail[0].token == bound)
    ensures InTokenOrder(r + tail)
  {
    var q := r + tail;
    forall i, j | 0 <= i < j < |q| ensures q[i].token < q[j].token {
      assert q[i] == r[i];
      if j >= |r| {
        assert q[j] == tail[0] && r[i] in r;
      } else {
        assert q[j] == r[j];
      }
    }
  }

  /**
   * Under increasing tokens the calls' tokens increase too: no subscription
   * is called twice, and with the membership clauses of `Deliveries` the
   * calls are exactly the matching subscriptions, in token order.
   */
  lemma {:induction false} DeliveriesInTokenOrder(subs: seq<Subscription>, message: string, senderId: string,
                                                  payload: Option<Payload>)
    requires TokensIncreasing(subs)
    ensures InTokenOrder(Deliveries(subs, message, senderId, payload))
  {
    if subs != [] {
      var init := subs[..|subs| - 1];
      var last := subs[|subs| - 1];
      DeliveriesInTokenOrder(init, message, senderId, payload);
      var r := Deliveries(init, message, senderId, payload);
      assert forall s :: s in init ==> s.token < last.token by {
        forall s | s in init ensures s.token < last.token {
          var k :| 0 <= k < |init| && init[k] == s;
          assert subs[k] == s;
        }
      }
      DeliveriesBelow(init, message, senderId, payload, last.token);
      var tail := if last.message == message then [Invocation(last.token, last.cb, senderId, payload)] else [];
      assert Deliveries(subs, message, senderId, payload) == r + tail;
      AppendInTokenOrder(r, tail, last.token);
    }
  }

  /** The gossips other than `self`, order kept (`gossip !== this`). */
  function Others(gossips: seq<InMemoryGossip>, self: InMemoryGossip): (r: seq<InMemoryGossip>)
    ensures forall k :: 0 <= k < |r| ==> r[k] in gossips && r[k] != self
    ensures forall k :: 0 <= k < |gossips| && gossips[k] != self ==> gossips[k] in r
    ensures |r| <= |gossips|
  {
    if gossips == [] then []
    else
      var last := gossips[|gossips| - 1];
      Others(gossips[..|gossips| - 1], self) + (if last == self then [] else [last])
  }

  /**
   * What broadcasting over `gossips` delivers: each gossip other than `self`,
   * in order, with the calls delivering the message to it makes.
   */
  ghost function BroadcastDeliveries(gossips: seq<InMemoryGossip>, self: InMemoryGossip, senderId: string,
                                     message: string, payload: Option<Payload>): seq<(InMemoryGossip, seq<Invocation>)>
    reads gossips
  {
    if gossips == [] then []
    else
      var last := gossips[|gossips| - 1];
      BroadcastDeliveries(gossips[..|gossips| - 1], self, senderId, message, payload) +
        (if last == self then [] else [(last, Deliveries(last.subscriptions, message, senderId, payload))])
  }

  /** Broadcasting reaches the gossips other than `self`, in order, each with its own deliveries. */
  lemma {:induction false} BroadcastReachesOthers(gossips: seq<InMemoryGossip>, self: InMemoryGossip, senderId: string,
                                                  message: string, payload: Option<Payload>)
    ensures var sent := BroadcastDeliveries(gossips, self, senderId, message, payload);
            var targets := Others(gossips, self);
            && |sent| == |targets|
            && forall k :: 0 <= k < |sent| ==>
                 sent[k].0 == targets[k] && sent[k].1 == Deliveries(targets[k].subscriptions, message, senderId, payload)
  {
    if gossips != [] {
      BroadcastReachesOthers(gossips[..|gossips| - 1], self, senderId, message, payload);
    }
  }

  /** One entry of the discovery's `gossipMap`, in insertion order. */
  datatype Entry = Entry(id: string, gossip: InMemoryGossip)

  predicate DistinctIds(entries: seq<Entry>) {
    forall i, j :: 0 <= i < j < |entries| ==> entries[i].id != entries[j].id
  }

  /** `gossipMap.get(id)`. */
  function Find(entries: seq<Entry>, id: string): (r: Option<InMemoryGossip>)
    ensures r.None? <==> forall k :: 0 <= k < |entries| ==> entries[k].id != id
    ensures r.Some? ==> exists k :: 0 <= k < |entries| && entries[k] == Entry(id, r.value)
  {
    if entries == [] then None
    else if entries[0].id == id then Some(entries[0].gossip)
    else
      var r := Find(entries[1..], id);
      assert r.Some? ==> exists k :: 0 <= k < |entries| && entries[k] == Entry(id, r.value) by {
        if r.Some? {
          var k :| 0 <= k < |entries| - 1 && entries[1..][k] == Entry(id, r.value);
          assert entries[k + 1] == entries[1..][k];
        }
      }
      r
  }

  /** `gossipMap.set(id, gossip)`: an existing id keeps its position, a new one goes last. */
  function Put(entries: seq<Entry>, id: string, gossip: InMemoryGossip): (r: seq<Entry>)
    ensures Find(entries, id).Some? ==> |r| == |entries|
    ensures Find(entries, id).None? ==> r == entries + [Entry(id, gossip)]
    ensures forall k :: 0 <= k < |entries| ==> r[k].id == entries[k].id
    ensures forall k :: 0 <= k < |entries| && entries[k].id != id ==> r[k] == entries[k]
  {
    if entries == [] then [Entry(id, gossip)]
    else if entries[0].id == id then [Entry(id, gossip)] + entries[1..]
    else [entries[0]] + Put(entries[1..], id, gossip)
  }

  /** After registering, the id finds the new gossip and every other id finds what it found before. */
  lemma {:induction false} PutFinds(entries: seq<Entry>, id: string, gossip: InMemoryGossip)
    ensures Find(Put(entries, id, gossip), id) == Some(gossip)
    ensures forall other :: other != id ==> Find(Put(entries, id, gossip), other) == Find(entries, other)
  {
    if entries != [] && entries[0].id != id {
      PutFinds(entries[1..], id, gossip);
      assert Put(entries, id, gossip)[1..] == Put(entries[1..], id, gossip);
    }
  }

  lemma {:induction false} PutKeepsDistinct(entries: seq<Entry>, id: string, gossip: InMemoryGossip)
    requires DistinctIds(entries)
    ensures DistinctIds(Put(entries, id, gossip))
  {
    var r := Put(entries, id, gossip);
    if Find(entries, id).None? {
      forall i, j | 0 <= i < j < |r| ensures r[i].id != r[j].id {
        if j == |entries| {
          assert r[i] == entries[i];
        } else {
          assert r[i] == entries[i] && r[j] == entries[j];
        }
      }
    } else {
      forall i, j | 0 <= i < j < |r| ensures r[i].id != r[j].id {
        assert r[i].id == entries[i].id && r[j].id == entries[j].id;
      }
    }
  }

  /** `Array.from(gossipMap.values())`. */
  function Values(entries: seq<Entry>): (r: seq<InMemoryGossip>)
    ensures |r| == |entries|
    ensures forall k :: 0 <= k < |entries| ==> r[k] == entries[k].gossip
  {
    if entries == [] then [] else [entries[0].gossip] + Values(entries[1..])
  }

  /** The gossips whose id is asked for (`ids.indexOf(id) > -1`), in registration order. */
  function Selected(entries: seq<Entry>, ids: seq<string>): (r: seq<InMemoryGossip>)
    ensures |r| <= |entries|
  {
    if entries == [] then []
    else (if IndexOf(ids, entries[0].id) > -1 then [entries[0].gossip] else []) + Selected(entries[1..], ids)
  }

  /** Exactly the gossips registered under a requested id are selected. */
  lemma {:induction false} SelectedMembers(entries: seq<Entry>, ids: seq<string>)
    ensures forall i :: 0 <= i < |Selected(entries, ids)| ==>
              exists k :: 0 <= k < |entries| && entries[k].gossip == Selected(entries, ids)[i] && entries[k].id in ids
    ensures forall k :: 0 <= k < |entries| && entries[k].id in ids ==> entries[k].gossip in Selected(entries, ids)
  {
    if entries != [] {
      var rest := Selected(entries[1..], ids);
      SelectedMembers(entries[1..], ids);
      var head := if IndexOf(ids, entries[0].id) > -1 then [entries[0].gossip] else [];
      var r := head + rest;
      assert Selected(entries, ids) == r;
      forall i | 0 <= i < |Selected(entries, ids)|
        ensures exists k :: 0 <= k < |entries| && entries[k].gossip == Selected(entries, ids)[i] && entries[k].id in ids
      {
        if i < |head| {
          assert entries[0].gossip == Selected(entries, ids)[i] && entries[0].id in ids;
        } else {
          assert r[i] == rest[i - |head|];
          var k :| 0 <= k < |entries| - 1 && entries[1..][k].gossip == rest[i - |head|] && entries[1..][k].id in ids;
          assert entries[k + 1] == entries[1..][k];
          assert entries[k + 1].gossip == Selected(entries, ids)[i] && entries[k + 1].id in ids;
        }
      }
      forall k | 0 <= k < |entries| && entries[k].id in ids ensures entries[k].gossip in r {
        if k > 0 {
          assert entries[1..][k - 1] == entries[k];
        }
      }
    } else {
      assert Selected(entries, ids) == [];
    }
  }

  /** Every position one further on. */
  function Shift(p: seq<nat>): (r: seq<nat>)
    ensures |r| == |p| && forall i :: 0 <= i < |p| ==> r[i] == p[i] + 1
  {
    if p == [] then [] else [p[0] + 1] + Shift(p[1..])
  }

  /** The positions of the entries whose id is asked for, in increasing order. */
  function MatchingPositions(entries: seq<Entry>, ids: seq<string>): (p: seq<nat>)
    ensures |p| <= |entries|
    ensures forall i :: 0 <= i < |p| ==> p[i] < |entries|
  {
    if entries == [] then []
    else
      (if entries[0].id in ids then [0] else []) + Shift(MatchingPositions(entries[1..], ids))
  }

  predicate StrictlyIncreasing(p: seq<nat>) {
    forall i, j :: 0 <= i < j < |p| ==> p[i] < p[j]
  }

  /** The positions increase strictly. */
  lemma {:induction false} MatchingIncreasing(entries: seq<Entry>, ids: seq<string>)
    ensures StrictlyIncreasing(MatchingPositions(entries, ids))
  {
    if entries != [] {
      MatchingIncreasing(entries[1..], ids);
      ShiftedAfterZero(if entries[0].id in ids then [0] else [], MatchingPositions(entries[1..], ids));
    }
  }

  /** Position 0, if present, followed by increasing positions shifted by one, still increases. */
  lemma ShiftedAfterZero(head: seq<nat>, p: seq<nat>)
    requires head == [] || head == [0]
    requires StrictlyIncreasing(p)
    ensures StrictlyIncreasing(head + Shift(p))
  {
    var q := head + Shift(p);
    forall i, j | 0 <= i < j < |q| ensures q[i] < q[j] {
      assert q[j] == p[j - |head|] + 1;
      if i >= |head| {
        assert q[i] == p[i - |head|] + 1;
      }
    }
  }

  /** A position is listed exactly when its entry's id is asked for. */
  lemma {:induction false} MatchingExact(entries: seq<Entry>, ids: seq<string>)
    ensures forall k :: k in MatchingPositions(entries, ids) <==> 0 <= k < |entries| && entries[k].id in ids
  {
    if entries != [] {
      var tail := entries[1..];
      MatchingExact(tail, ids);
      var rest := MatchingPositions(tail, ids);
      var shifted := Shift(rest);
      var head := if entries[0].id in ids then [0] else [];
      assert MatchingPositions(entries, ids) == head + shifted;
      forall k | k in shifted ensures 1 <= k < |entries| && entries[k].id in ids {
        var m :| 0 <= m < |shifted| && shifted[m] == k;
        assert rest[m] in rest && tail[rest[m]] == entries[k];
      }
      forall k | 1 <= k < |entries| && entries[k].id in ids ensures k in shifted {
        assert tail[k - 1] == entries[k];
        var m :| 0 <= m < |rest| && rest[m] == k - 1;
        assert shifted[m] == k;
      }
    }
  }

  /** `Selected` takes the gossips at exactly the matching positions, in order. */
  lemma {:induction false} SelectedAtMatching(entries: seq<Entry>, ids: seq<string>)
    ensures var r := Selected(entries, ids);
            var p := MatchingPositions(entries, ids);
            |r| == |p| && forall i :: 0 <= i < |p| ==> r[i] == entries[p[i]].gossip
  {
    if entries != [] {
      SelectedAtMatching(entries[1..], ids);
      var rest := MatchingPositions(entries[1..], ids);
      var shifted := Shift(rest);
      var head := if entries[0].id in ids then [0] else [];
      var p := MatchingPositions(entries, ids);
      assert p == head + shifted;
      var rr := Selected(entries[1..], ids);
      assert IndexOf(ids, entries[0].id) > -1 <==> entries[0].id in ids;
      var rhead := if entries[0].id in ids then [entries[0].gossip] else [];
      var r := Selected(entries, ids);
      assert r == rhead + rr;
      forall i | 0 <= i < |p| ensures r[i] == entries[p[i]].gossip {
        if i >= |head| {
          var m := i - |head|;
          assert p[i] == rest[m] + 1 && r[i] == rr[m];
          assert entries[1..][rest[m]] == entries[p[i]];
        }
      }
    }
  }

  /**
   * The requested gossips form an ordered subsequence of `Values(entries)`:
   * one per entry whose id is asked for, taken at strictly increasing
   * positions, and every such entry is taken.
   */
  lemma SelectedInRegistrationOrder(entries: seq<Entry>, ids: seq<string>)
    ensures var r := Selected(entries, ids);
            var p := MatchingPositions(entries, ids);
            && |r| == |p|
            && StrictlyIncreasing(p)
            && (forall i :: 0 <= i < |p| ==> entries[p[i]].id in ids && r[i] == Values(entries)[p[i]])
            && (forall k :: 0 <= k < |entries| && entries[k].id in ids ==> k in p)
  {
    MatchingIncreasing(entries, ids);
    MatchingExact(entries, ids);
    SelectedAtMatching(entries, ids);
  }

  /** Membership and order of the requested gossips together. */
  lemma SelectedCharacterised(entries: seq<Entry>, ids: seq<string>)
    ensures OnlyRequested(entries, ids, Selected(entries, ids))
    ensures forall k :: 0 <= k < |entries| && entries[k].id in ids ==> entries[k].gossip in Selected(entries, ids)
    ensures var r := Selected(entries, ids);
            var p := MatchingPositions(entries, ids);
            && |r| == |p| && StrictlyIncreasing(p)
            && forall i :: 0 <= i < |p| ==> entries[p[i]].id in ids && r[i] == entries[p[i]].gossip
  {
    SelectedMembers(entries, ids);
    SelectedInRegistrationOrder(entries, ids);
  }

  /** Every gossip listed is registered under a requested id. */
  ghost predicate OnlyRequested(entries: seq<Entry>, ids: seq<string>, r: seq<InMemoryGossip>) {
    forall i :: 0 <= i < |r| ==> exists k :: 0 <= k < |entries| && entries[k].gossip == r[i] && entries[k].id in ids
  }

  /** Only which ids are asked for matters, not their order or repetition. */
  lemma {:induction false} SelectedIgnoresRequestOrder(entries: seq<Entry>, ids: seq<string>, ids': seq<string>)
    requires forall id :: id in ids <==> id in ids'
    ensures Selected(entries, ids) == Selected(entries, ids')
  {
    if entries != [] {
      SelectedIgnoresRequestOrder(entries[1..], ids, ids');
      assert (IndexOf(ids, entries[0].id) > -1) == (IndexOf(ids', entries[0].id) > -1);
    }
  }

  /** Asking for every registered id yields every gossip, as asking for none does. */
  lemma {:induction false} SelectingAllIsAll(entries: seq<Entry>, ids: seq<string>)
    requires forall k :: 0 <= k < |entries| ==> entries[k].id in ids
    ensures Selected(entries, ids) == Values(entries)
  {
    if entries != [] {
      SelectingAllIsAll(entries[1..], ids);
    }
  }

  class InMemoryGossip {
    var totalSubscriptions: nat
    /** The `subscriptions` map as its entries in insertion order. */
    var subscriptions: seq<Subscription>
    const discovery: InMemoryGossipDiscovery

    /** Tokens are handed out in increasing order and never exceed the counter. */
    ghost predicate Valid()
      reads this
    {
      && TokensIncreasing(subscriptions)
      && forall k :: 0 <= k < |subscriptions| ==> 1 <= subscriptions[k].token <= totalSubscriptions
    }

    constructor (discovery: InMemoryGossipDiscovery)
      ensures Valid()
      ensures this.discovery == discovery && totalSubscriptions == 0 && subscriptions == []
    {
      this.discovery := discovery;
      totalSubscriptions := 0;
      subscriptions := [];
    }

    /** Files `cb` under a fresh token, the previous counter plus one, and returns it. */
    method Subscribe(message: string, cb: Callback) returns (token: nat)
      requires Valid()
      modifies this`totalSubscriptions, this`subscriptions
      ensures Valid()
      ensures token == old(totalSubscriptions) + 1 && totalSubscriptions == token
      ensures subscriptions == old(subscriptions) + [Subscription(token, message, cb)]
      ensures forall s :: s in old(subscriptions) ==> s.token < token
    {
      totalSubscriptions := totalSubscriptions + 1;
      subscriptions := subscriptions + [Subscription(totalSubscriptions, message, cb)];
      token := totalSubscriptions;
    }

    /** Drops the subscription filed under `subscriptionToken`, if any; the counter stays. */
    method Unsubscribe(subscriptionToken: nat)
      requires Valid()
      modifies this`subscriptions
      ensures Valid()
      ensures subscriptions == Without(old(subscriptions), subscriptionToken)
    {
      WithoutKeepsIncreasing(subscriptions, subscriptionToken);
      subscriptions := Without(subscriptions, subscriptionToken);
    }

    /** Calls every callback subscribed to `message`, each once, in subscription order. */
    method OnRemoteMessage(senderId: string, message: string, payload: Option<Payload>) returns (calls: seq<Invocation>)
      ensures calls == Deliveries(subscriptions, message, senderId, payload)
      ensures TokensIncreasing(subscriptions) ==> InTokenOrder(calls)
    {
      calls := [];
      var i := 0;
      while i < |subscriptions|
        invariant 0 <= i <= |subscriptions|
        invariant calls == Deliveries(subscriptions[..i], message, senderId, payload)
      {
        var subscription := subscriptions[i];
        assert subscriptions[..i + 1][..i] == subscriptions[..i];
        if subscription.message == message {
          calls := calls + [Invocation(subscription.token, subscription.cb, senderId, payload)];
        }
        i := i + 1;
      }
      assert subscriptions[..i] == subscriptions;
      if TokensIncreasing(subscriptions) {
        DeliveriesInTokenOrder(subscriptions, message, senderId, payload);
      }
    }

    /**
     * Delivers the message to every registered gossip except this one, in
     * registration order, and returns each target with the calls it made.
     */
    method Broadcast(senderId: string, message: string, payload: Option<Payload>)
      returns (sent: seq<(InMemoryGossip, seq<Invocation>)>)
      ensures sent == BroadcastDeliveries(discovery.GetGossips([]), this, senderId, message, payload)
    {
      var gossips := discovery.GetGossips([]);
      sent := [];
      var i := 0;
      while i < |gossips|
        invariant 0 <= i <= |gossips|
        invariant sent == BroadcastDeliveries(gossips[..i], this, senderId, message, payload)
      {
        var gossip := gossips[i];
        assert gossips[..i + 1][..i] == gossips[..i];
        if gossip != this {
          var calls := gossip.OnRemoteMessage(senderId, message, payload);
          sent := sent + [(gossip, calls)];
        }
        i := i + 1;
      }
      assert gossips[..i] == gossips;
    }

    /** Delivers the message to the gossip registered as `targetId`, when there is one. */
    method Unicast(senderId: string, targetId: string, message: string, payload: Option<Payload>)
      returns (sent: Option<seq<Invocation>>)
      ensures discovery.GetGossipById(targetId).None? ==> sent.None?
      ensures discovery.GetGossipById(targetId).Some? ==>
                sent == Some(Deliveries(discovery.GetGossipById(targetId).value.subscriptions, message, senderId, payload))
    {
      var targetGossip := discovery.GetGossipById(targetId);
      if targetGossip.Some? {
        var calls := targetGossip.value.OnRemoteMessage(senderId, message, payload);
        sent := Some(calls);
      } else {
        sent := None;
      }
    }
  }

  class InMemoryGossipDiscovery {
    /** The `gossipMap` as its entries in insertion order. */
    var entries: seq<Entry>

    ghost predicate Valid()
      reads this
    {
      DistinctIds(entries)
    }

    constructor ()
      ensures Valid() && entries == []
    {
      entries := [];
    }

    /** The gossip registered under `id`, or none. */
    function GetGossipById(id: string): (r: Option<InMemoryGossip>)
      reads this
      ensures r.None? <==> forall k :: 0 <= k < |entries| ==> entries[k].id != id
      ensures r.Some? ==> Entry(id, r.value) in entries
      ensures Valid() ==> forall k :: 0 <= k < |entries| && entries[k].id == id ==> r == Some(entries[k].gossip)
    {
      var r := Find(entries, id);
      assert Valid() ==> forall k :: 0 <= k < |entries| && entries[k].id == id ==> r == Some(entries[k].gossip) by {
        if Valid() {
          forall k' | 0 <= k' < |entries| && entries[k'].id == id ensures r == Some(entries[k'].gossip) {
            var k :| 0 <= k < |entries| && entries[k] == Entry(id, r.value);
            assert k == k';
          }
        }
      }
      r
    }

    /** Registers `gossip` as `id`, replacing an earlier registration in its place. */
    method RegisterGossip(id: string, gossip: InMemoryGossip)
      requires Valid()
      modifies this`entries
      ensures Valid()
      ensures entries == Put(old(entries), id, gossip)
      ensures GetGossipById(id) == Some(gossip)
      ensures forall other :: other != id ==> GetGossipById(other) == old(GetGossipById(other))
    {
      PutKeepsDistinct(entries, id, gossip);
      PutFinds(entries, id, gossip);
      entries := Put(entries, id, gossip);
    }

    /**
     * With ids, the gossips registered under any of them, in registration
     * order, one per matching entry (taken at the strictly increasing
     * `MatchingPositions`); without, every registered gossip in registration
     * order.
     */
    function GetGossips(ids: seq<string>): (r: seq<InMemoryGossip>)
      reads this
      ensures |ids| == 0 ==> |r| == |entries| && forall k :: 0 <= k < |r| ==> r[k] == entries[k].gossip
      ensures |ids| > 0 ==>
                && OnlyRequested(entries, ids, r)
                && (forall k :: 0 <= k < |entries| && entries[k].id in ids ==> entries[k].gossip in r)
      ensures |ids| > 0 ==>
                var p := MatchingPositions(entries, ids);
                && |r| == |p| && StrictlyIncreasing(p)
                && forall i :: 0 <= i < |p| ==> entries[p[i]].id in ids && r[i] == entries[p[i]].gossip
    {
      if |ids| > 0 then
        SelectedCharacterised(entries, ids);
        Selected(entries, ids)
      else Values(entries)
    }
  }
}
