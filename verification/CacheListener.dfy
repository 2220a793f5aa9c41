// The cache half of the pub/sub listener (redis_ws_pubsub_listener in api/v1/websocket_router.py):
// each worker applies the invalidations of the others, and its own, to its cache.
module CacheListener {
  import opened Prelude
  import opened Text
  import opened ProfileCache
  import opened CacheProtocol

  type NodeId = nat

  // What `invalidate` publishes: the message and the node id of the publishing cache.
  datatype Envelope = Envelope(origin: NodeId, message: Message)

  predicate Heard(node: NodeId, e: Envelope) {
    e.origin != node
  }

  function HandleL1(l1: Tier, node: NodeId, e: Envelope): Tier {
    if Heard(node, e) then InvalidateL1(l1, e.message.userId, e.message.identifier) else l1
  }

  function HandleL2(l2: Tier, node: NodeId, e: Envelope): Tier {
    if Heard(node, e) then InvalidateL2(l2, e.message.userId, e.message.identifier) else l2
  }

  function DeliveredL1(l1: Tier, node: NodeId, es: seq<Envelope>): Tier
    decreases |es|
  {
    if es == [] then l1 else DeliveredL1(HandleL1(l1, node, es[0]), node, es[1..])
  }

  function DeliveredL2(l2: Tier, node: NodeId, es: seq<Envelope>): Tier
    decreases |es|
  {
    if es == [] then l2 else DeliveredL2(HandleL2(l2, node, es[0]), node, es[1..])
  }

  // The listener loop over the messages of one connection.
  method Listen(cache: UserProfileCache, node: NodeId, es: seq<Envelope>)
    modifies cache, cache.redis
    ensures cache.l1 == DeliveredL1(old(cache.l1), node, es)
    ensures cache.redis != null ==> cache.redis.keys == DeliveredL2(old(cache.redis.keys), node, es)
  {
    for i := 0 to |es|
      invariant DeliveredL1(cache.l1, node, es[i..]) == DeliveredL1(old(cache.l1), node, es)
      invariant cache.redis != null ==>
        DeliveredL2(cache.redis.keys, node, es[i..]) == DeliveredL2(old(cache.redis.keys), node, es)
    {
      assert es[i..][0] == es[i] && es[i..][1..] == es[i + 1..];
      if es[i].origin == node {
        continue;
      }
      var _ := cache.Invalidate(es[i].message.userId, es[i].message.identifier, false);
    }
  }

  // Some heard message is about the user.
  predicate NamesUser(node: NodeId, es: seq<Envelope>, uid: UserId) {
    exists e <- es :: Heard(node, e) && e.message.userId == Some(uid)
  }

  predicate NamesKey(node: NodeId, es: seq<Envelope>, key: string) {
    exists e <- es :: Heard(node, e) && e.message.identifier.Some? && Clean(e.message.identifier.value) == key
  }

  // The entries of L1 that remain and those of L2 that remain, read off the set of messages heard.
  function Remaining(l1: Tier, node: NodeId, es: seq<Envelope>): Tier {
    Tier(map uid | uid in l1.users && !NamesUser(node, es, uid) :: l1.users[uid],
         map k | k in l1.idents && !NamesUser(node, es, l1.idents[k].value) && !NamesKey(node, es, k) :: l1.idents[k])
  }

  function RemainingL2(l2: Tier, node: NodeId, es: seq<Envelope>): Tier {
    Tier(map uid | uid in l2.users && !NamesUser(node, es, uid) :: l2.users[uid],
         map k | k in l2.idents && !NamesKey(node, es, k) :: l2.idents[k])
  }

  lemma FirstOrRest(node: NodeId, es: seq<Envelope>)
    requires es != []
    ensures forall uid :: NamesUser(node, es, uid) <==> NamesUser(node, [es[0]], uid) || NamesUser(node, es[1..], uid)
    ensures forall k :: NamesKey(node, es, k) <==> NamesKey(node, [es[0]], k) || NamesKey(node, es[1..], k)
  {
    assert forall e :: e in es <==> e == es[0] || e in es[1..];
  }

  lemma NamedByOne(node: NodeId, e: Envelope)
    ensures forall uid: UserId :: NamesUser(node, [e], uid) <==> Heard(node, e) && e.message.userId == Some(uid)
    ensures forall k :: NamesKey(node, [e], k) <==>
      Heard(node, e) && e.message.identifier.Some? && Clean(e.message.identifier.value) == k
  {
    hide Clean;
    assert e in [e];
  }

  lemma OneMessage(l1: Tier, l2: Tier, node: NodeId, e: Envelope)
    ensures HandleL1(l1, node, e) == Remaining(l1, node, [e])
    ensures HandleL2(l2, node, e) == RemainingL2(l2, node, [e])
  {
    NamedByOne(node, e);
    hide Clean, NamesUser, NamesKey;
  }

  lemma OneByOne(l1: Tier, l2: Tier, node: NodeId, es: seq<Envelope>)
    requires es != []
    ensures Remaining(Remaining(l1, node, [es[0]]), node, es[1..]) == Remaining(l1, node, es)
    ensures RemainingL2(RemainingL2(l2, node, [es[0]]), node, es[1..]) == RemainingL2(l2, node, es)
  {
    FirstOrRest(node, es);
    hide NamesUser, NamesKey;
  }

  // Delivery removes exactly the entries that some heard message names, so neither the order nor
  // the number of copies of the messages matters.
  lemma {:induction false} DeliveryRemovesNamed(l1: Tier, l2: Tier, node: NodeId, es: seq<Envelope>)
    ensures DeliveredL1(l1, node, es) == Remaining(l1, node, es)
    ensures DeliveredL2(l2, node, es) == RemainingL2(l2, node, es)
    decreases |es|
  {
    if es == [] {
      hide Clean;
    } else {
      OneMessage(l1, l2, node, es[0]);
      OneByOne(l1, l2, node, es);
      hide Remaining, RemainingL2, HandleL1, HandleL2;
      DeliveryRemovesNamed(HandleL1(l1, node, es[0]), HandleL2(l2, node, es[0]), node, es[1..]);
    }
  }

  // The loop suppresses the listener's own messages and no others.
  lemma OwnMessagesChangeNothing(l1: Tier, l2: Tier, node: NodeId, es: seq<Envelope>)
    requires forall e <- es :: e.origin == node
    ensures DeliveredL1(l1, node, es) == l1 && DeliveredL2(l2, node, es) == l2
  {
    DeliveryRemovesNamed(l1, l2, node, es);
    assert forall uid: UserId :: !NamesUser(node, es, uid);
    assert forall k :: !NamesKey(node, es, k);
  }

  lemma DeliveryOrderIrrelevant(l1: Tier, l2: Tier, node: NodeId, es: seq<Envelope>, fs: seq<Envelope>)
    requires forall e :: e in es <==> e in fs
    ensures DeliveredL1(l1, node, es) == DeliveredL1(l1, node, fs)
    ensures DeliveredL2(l2, node, es) == DeliveredL2(l2, node, fs)
  {
    DeliveryRemovesNamed(l1, l2, node, es);
    DeliveryRemovesNamed(l1, l2, node, fs);
  }

  // One heard message about a user is the delivery step of the protocol.
  lemma DeliverStepIsListener(cfg: Config, w: World, v: Worker, node: NodeId, origin: NodeId)
    requires WellFormed(w) && Enabled(w, Deliver(v)) && origin != node
    ensures var es := [Envelope(origin, Message(Some(w.queues[v][0]), None))];
      var w' := Apply(cfg, w, Deliver(v));
      && w'.l1 == w.l1[v := DeliveredL1(w.l1[v], node, es)]
      && w'.l2 == DeliveredL2(w.l2, node, es)
  {
    var es := [Envelope(origin, Message(Some(w.queues[v][0]), None))];
    assert es[1..] == [];
    assert DeliveredL1(w.l1[v], node, es) == HandleL1(w.l1[v], node, es[0]);
    assert DeliveredL2(w.l2, node, es) == HandleL2(w.l2, node, es[0]);
  }
}
