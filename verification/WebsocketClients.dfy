/** The websocket client and its router: each operation, in place, takes the step of the
    protocol that the subscriptions describe. */
module WebsocketClients {
  import opened Wrappers
  import opened Subscribers
  import opened Subscriptions
  import opened WireNames

  /** Writes messages to the connection; what becomes of each is up to the network. */
  class MessagePublisher {
    /** What the other side holds for every uid it handed out. */
    ghost var server: map<Uid, set<Path>>

    constructor (uid: Uid)
      ensures server == map[uid := {}]
    {
      server := map[uid := {}];
    }

    ghost function Held(uid: Uid): set<Path> reads this { if uid in server then server[uid] else {} }

    /** Switches to a new connection, for which nothing is held yet. */
    method SetConn(ghost uid: Uid)
      modifies this
      ensures server == old(server)[uid := {}]
    {
      server := server[uid := {}];
    }

    method PublishSubscribeMessage(uid: Uid, path: Path, outcome: Outcome) returns (ok: bool)
      modifies this
      ensures ok <==> outcome != Refused
      ensures server == if outcome == Sent then old(server)[uid := old(Held(uid)) + {path}] else old(server)
    {
      if outcome == Sent { server := server[uid := Held(uid) + {path}]; }
      ok := outcome != Refused;
    }

    method PublishUnsubscribeMessage(uid: Uid, path: Path, outcome: Outcome) returns (ok: bool)
      modifies this
      ensures ok <==> outcome != Refused
      ensures server == if outcome == Sent then old(server)[uid := old(Held(uid)) - {path}] else old(server)
    {
      if outcome == Sent { server := server[uid := Held(uid) - {path}]; }
      ok := outcome != Refused;
    }
  }

  class MessageRouter {
    var uid: Uid
    var topicHandlers: map<Path, Route>
    const publisher: MessagePublisher
    const block: BlockStore
    const stores: map<Channel, AddressStore>

    constructor (uid: Uid, publisher: MessagePublisher, block: BlockStore, stores: map<Channel, AddressStore>)
      ensures this.uid == uid && topicHandlers == map[]
      ensures this.publisher == publisher && this.block == block && this.stores == stores
    {
      this.uid, topicHandlers := uid, map[];
      this.publisher, this.block, this.stores := publisher, block, stores;
    }

    /** One store for every channel, none shared. */
    ghost predicate Valid() {
      && stores.Keys == CHANNELS
      && forall c, d :: c in stores && d in stores && c != d ==> stores[c] != stores[d]
    }

    /** The state of the protocol, given what only the client knows. */
    ghost function Snapshot(clientUid: Uid, ready: bool): Client
      reads this, publisher, block, stores.Values
    {
      Client(clientUid, uid, block.handlers, Stored(), topicHandlers, publisher.server, ready)
    }

    method SetUid(uid: Uid)
      modifies this
      ensures this.uid == uid && topicHandlers == old(topicHandlers)
    {
      this.uid := uid;
    }

    method SetTopicHandler(path: Path, route: Route)
      modifies this
      ensures topicHandlers == old(topicHandlers)[path := route] && uid == old(uid)
    {
      topicHandlers := topicHandlers[path := route];
    }

    ghost function Stored(): map<Channel, map<Address, set<Handler>>>
      reads stores.Values
    {
      map c | c in stores :: stores[c].subscribers
    }

    twostate lemma OneStoreChanged(c: Channel)
      requires c in stores && forall d :: d in stores && d != c ==> unchanged(stores[d])
      ensures Stored() == old(Stored())[c := stores[c].subscribers]
    {}

    /** Hands a message to the handler registered for its channel. */
    method Handle(
      route: Route, address: Address, verdict: Handler -> bool, ghost clientUid: Uid, ghost ready: bool)
      returns (keep: bool)
      requires Valid()
      modifies block, stores.Values
      ensures var s, t := old(Snapshot(clientUid, ready)), TopicOf(route, address);
              && (keep <==> !Empties(s, t, verdict))
              && Snapshot(clientUid, ready) ==
                   if Handlers(s, t) == {} then s else WithHandlers(s, t, Survivors(Handlers(s, t), verdict))
    {
      hide Survivors;
      SurvivorsOfNone(verdict);
      ghost var calls: multiset<Handler>;
      match route {
        case BlockRoute =>
          keep, calls := block.Handle(verdict);
          assert Stored() == old(Stored());
        case AddressRoute(c) =>
          EveryChannel(c);
          keep, calls := stores[c].Handle(address, verdict);
          assert Stored() == old(Stored())[c := stores[c].subscribers];
      }
    }

    /** Delivers one message, and unsubscribes from what nobody waits for any more; panics
        on a channel without a handler and on a refused unsubscription. */
    method RouteMessage(
      name: Path, address: Address, verdict: Handler -> bool, outcome: Outcome, ghost clientUid: Uid, ghost ready: bool)
      returns (panicked: bool)
      requires Valid()
      modifies publisher, block, stores.Values
      ensures var s := old(Snapshot(clientUid, ready));
              Snapshot(clientUid, ready) == if name in s.routes then AfterMessage(s, name, address, verdict, outcome) else s
      ensures var s := old(Snapshot(clientUid, ready));
              panicked <==>
                || name !in s.routes
                || (outcome == Refused && Empties(s, TopicOf(s.routes[name], address), verdict))
      ensures var s, s' := old(Snapshot(clientUid, ready)), Snapshot(clientUid, ready);
              Invariant(s) && name in s.routes ==> DeliversNamed(s, s', name, address, verdict, outcome)
    {
      ghost var s := Snapshot(clientUid, ready);
      if name in s.routes { DeliveriesOnTheWire(s, name, address, verdict, outcome); }
      hide Invariant, DeliversNamed;
      hide Survivors, Format, Handlers, TopicOf;
      if name !in topicHandlers { return true; }
      var route := topicHandlers[name];
      var keep := Handle(route, address, verdict, clientUid, ready);
      panicked := false;
      if !keep {
        ghost var delivered := Snapshot(clientUid, ready);
        var ok := publisher.PublishUnsubscribeMessage(uid, Format(route, name, address), outcome);
        assert Snapshot(clientUid, ready) == Unsubscribe(delivered, uid, Format(route, name, address), outcome);
        panicked := !ok;
      }
    }
  }

  lemma EveryChannel(c: Channel)
    ensures c in CHANNEL_ORDER && c in CHANNELS
  {
    match c {
      case ConfirmedAdded => assert CHANNEL_ORDER[0] == c;
      case Cosignature => assert CHANNEL_ORDER[1] == c;
      case PartialAdded => assert CHANNEL_ORDER[2] == c;
      case PartialRemoved => assert CHANNEL_ORDER[3] == c;
      case Status => assert CHANNEL_ORDER[4] == c;
      case UnconfirmedAdded => assert CHANNEL_ORDER[5] == c;
      case UnconfirmedRemoved => assert CHANNEL_ORDER[6] == c;
    }
  }

  class WebsocketClient {
    var uid: Uid
    ghost var ready: bool
    const router: MessageRouter
    const publisher: MessagePublisher
    const block: BlockStore
    const stores: map<Channel, AddressStore>

    constructor (uid: Uid)
      ensures Valid() && State() == Start(uid)
    {
      this.uid, ready := uid, true;
      var stores: map<Channel, AddressStore> := map[];
      for i := 0 to |CHANNEL_ORDER|
        invariant stores.Keys == set c | c in CHANNEL_ORDER[..i]
        invariant forall c :: c in stores ==> fresh(stores[c]) && stores[c].subscribers == map[]
        invariant forall c, d :: c in stores && d in stores && c != d ==> stores[c] != stores[d]
      {
        var store := new AddressStore();
        stores := stores[CHANNEL_ORDER[i] := store];
        assert CHANNEL_ORDER[..i + 1] == CHANNEL_ORDER[..i] + [CHANNEL_ORDER[i]];
      }
      assert CHANNEL_ORDER[..|CHANNEL_ORDER|] == CHANNEL_ORDER;
      var publisher := new MessagePublisher(uid);
      var block := new BlockStore();
      router := new MessageRouter(uid, publisher, block, stores);
      this.publisher, this.block, this.stores := publisher, block, stores;
      new;
      assert router.Stored() == Start(uid).stores;
    }

    ghost predicate Valid() {
      && router.Valid()
      && router.publisher == publisher && router.block == block && router.stores == stores
    }

    ghost function State(): Client
      reads this, router, router.publisher, router.block, router.stores.Values
    {
      router.Snapshot(uid, ready)
    }

    /** The connection drops; the client notices later. */
    ghost method Lose()
      modifies this`ready
      ensures State() == Next(old(State()), Event.Lose)
    {
      Settle(false);
    }

    method Announce(t: Topic, has: bool, outcome: Outcome) returns (ok: bool)
      requires Valid() && (has <==> Handlers(State(), t) != {})
      modifies router, publisher
      ensures State() == Announced(old(State()), t, outcome)
      ensures ok <==> has || outcome != Refused
    {
      ghost var s := State();
      Register(t);
      ghost var registered := State();
      hide NameOf, RouteOf, PathOf, Handlers;
      ok := true;
      if !has {
        ok := publisher.PublishSubscribeMessage(uid, PathOf(t), outcome);
        assert State() == Subscribe(registered, uid, PathOf(t), outcome);
      }
    }

    method Register(t: Topic)
      requires Valid()
      modifies router
      ensures State() == Registered(old(State()), t)
    {
      hide NameOf, RouteOf;
      if NameOf(t) !in router.topicHandlers {
        router.SetTopicHandler(NameOf(t), RouteOf(t));
      }
    }

    method AddBlockHandlers(added: seq<Handler>, outcome: Outcome) returns (ok: bool)
      requires Valid()
      modifies router, publisher, block
      ensures State() == AfterAdd(old(State()), Block, added, outcome)
      ensures ok <==> added == [] || Stores(old(State()), Block, added, outcome)
      ensures AddsNamed(old(State()), State(), Block, added, outcome)
    {
      hide SetOf, NameOf, RouteOf, PathOf, AddsNamed;
      AddsOnTheWire(State(), Block, added, outcome);
      if added == [] { return true; }
      var has := block.HasHandlers();
      ok := Announce(Block, has, outcome);
      if ok {
        ghost var announced := State();
        assert announced.block == old(block.handlers);
        block.AddHandlers(added);
        assert router.Stored() == announced.stores;
      }
    }

    method AddAddressHandlers(c: Channel, address: Address, added: seq<Handler>, outcome: Outcome) returns (ok: bool)
      requires Valid()
      modifies router, publisher, stores.Values
      ensures State() == AfterAdd(old(State()), OfAddress(c, address), added, outcome)
      ensures ok <==> added == [] || Stores(old(State()), OfAddress(c, address), added, outcome)
      ensures AddsNamed(old(State()), State(), OfAddress(c, address), added, outcome)
    {
      hide SetOf, NameOf, RouteOf, PathOf, AddsNamed;
      AddsOnTheWire(State(), OfAddress(c, address), added, outcome);
      EveryChannel(c);
      if added == [] { return true; }
      AddInSteps(State(), OfAddress(c, address), added, outcome);
      var has := stores[c].HasHandlers(address);
      hide AfterAdd, Announced, WithHandlers, Stores;
      ok := Announce(OfAddress(c, address), has, outcome);
      if ok { Store(c, address, added); }
    }

    method Store(c: Channel, address: Address, added: seq<Handler>)
      requires Valid() && c in stores && added != []
      modifies stores[c]
      ensures var s, t := old(State()), OfAddress(c, address);
              State() == WithHandlers(s, t, Handlers(s, t) + SetOf(added))
    {
      hide SetOf, HandlersAt;
      ghost var s := State();
      assert stores[c].subscribers == Entries(s, c);
      label before:
      stores[c].AddHandlers(address, added);
      router.OneStoreChanged@before(c);
      StoredIn(s, State(), c, address, added);
      hide *;
    }

    /** Opens a connection and subscribes again, stopping at the first refusal. */
    method Reconnect(connection: Option<Uid>, network: Path -> Outcome)
      returns (ok: bool, ghost received: set<Path>, ghost complete: bool)
      requires Valid()
      requires connection.Some? ==> connection.value !in State().server
      modifies this, router, publisher
      ensures Enabled(old(State()), Event.Reconnect(connection, received, complete))
      ensures State() == AfterReconnect(old(State()), connection, received, complete)
      ensures ok <==> connection.Some? && forall t :: Listed(old(State()), t) ==> network(PathOf(t)) != Refused
      ensures ok ==> forall t :: Listed(old(State()), t) ==> (PathOf(t) in received <==> network(PathOf(t)) == Sent)
      ensures complete <==> ok && forall t :: Listed(old(State()), t) ==> network(PathOf(t)) == Sent
      ensures complete ==> Restores(old(State()), State())
      ensures complete <==> connection.Some? && AllSent(old(State()), network)
    {
      hide PathOf, Listed, Wanted, Sendable, Enabled, Restores, AllSent;
      received, complete := {}, false;
      ghost var s := State();
      if connection.None? {
        assert Enabled(s, Event.Reconnect(None, {}, false)) by { NoConnection(s); }
        return false, {}, false;
      }
      Open(connection.value);
      WantedSame(s, State(), |CHANNEL_ORDER|);
      ghost var dialled := State();
      ok, received := Resubscribe(network);
      assert State() == dialled.(server := s.server[uid := {} + received]);
      assert {} + received == received;
      complete := ok && forall p :: p in Wanted(s, |CHANNEL_ORDER|) ==> network(p) == Sent;
      Settle(complete);
      Resubscribed(s, uid, network, ok, received, complete);
      SentOnTheWire(s, network);
      if complete { ReconnectOnTheWire(s, uid, received); }
    }

    method Open(connection: Uid)
      requires Valid()
      modifies this`uid, router, publisher
      ensures uid == connection
      ensures var s := old(State());
              State() == s.(uid := connection, routerUid := connection, server := s.server[connection := {}])
    {
      uid := connection;
      publisher.SetConn(connection);
      router.SetUid(connection);
    }

    ghost method Settle(ready: bool)
      modifies this`ready
      ensures State() == old(State()).(ready := ready)
    {
      this.ready := ready;
    }

    /** Subscribes to block and then to every listed address, channel by channel. */
    method Resubscribe(network: Path -> Outcome) returns (ok: bool, ghost received: set<Path>)
      requires Valid() && uid in publisher.server
      modifies publisher
      ensures publisher.server == Holding(old(publisher.server), uid, received)
      ensures var wanted := Wanted(old(State()), |CHANNEL_ORDER|);
              && received <= Sendable(wanted, network)
              && (ok <==> forall p :: p in wanted ==> network(p) != Refused)
              && (ok ==> received == Sendable(wanted, network))
    {
      hide PathOf, AddressPaths, Sendable, Holding;
      ghost var s, server := State(), publisher.server;
      ok, received := SubscribeBlock(network);
      WantedGrows(s, 0, |CHANNEL_ORDER|, network);
      if !ok { return; }
      for i := 0 to |CHANNEL_ORDER|
        invariant uid in publisher.server && publisher.server == Holding(server, uid, received)
        invariant received == Sendable(Wanted(s, i), network)
        invariant forall p :: p in Wanted(s, i) ==> network(p) != Refused
      {
        var c := CHANNEL_ORDER[i];
        EveryChannel(c);
        assert Entries(s, c) == stores[c].subscribers;
        hide Wanted, Entries;
        ghost var got: set<Path>;
        ok, got := SubscribeAll(c, network);
        HoldingMore(server, uid, received, got);
        ChannelSent(s, i, network, received, got, ok);
        received := received + got;
        if !ok { return; }
      }
      ok := true;
    }

    method SubscribeTo(path: Path, outcome: Outcome) returns (ok: bool)
      requires uid in publisher.server
      modifies publisher
      ensures uid in publisher.server
      ensures publisher.server == Holding(old(publisher.server), uid, if outcome == Sent then {path} else {})
      ensures ok <==> outcome != Refused
    {
      HoldingMore(publisher.server, uid, {}, {});
      ok := publisher.PublishSubscribeMessage(uid, path, outcome);
    }

    method SubscribeBlock(network: Path -> Outcome) returns (ok: bool, ghost got: set<Path>)
      requires Valid() && uid in publisher.server
      modifies publisher
      ensures uid in publisher.server && publisher.server == Holding(old(publisher.server), uid, got)
      ensures ok <==> forall p :: p in Wanted(old(State()), 0) ==> network(p) != Refused
      ensures got == Sendable(Wanted(old(State()), 0), network)
    {
      ok, got := true, Sendable(Wanted(State(), 0), network);
      HoldingMore(publisher.server, uid, {}, {});
      var has := block.HasHandlers();
      assert !has ==> got == {};
      hide Holding, Wanted, Sendable;
      if has {
        assert got == if network(PATH_BLOCK) == Sent then {PATH_BLOCK} else {};
        ok := SubscribeTo(PATH_BLOCK, network(PATH_BLOCK));
      }
    }

    /** Subscribes one channel's addresses, in any order. */
    method SubscribeAll(c: Channel, network: Path -> Outcome) returns (ok: bool, ghost got: set<Path>)
      requires c in stores && uid in publisher.server
      modifies publisher
      ensures uid in publisher.server && publisher.server == Holding(old(publisher.server), uid, got)
      ensures var wanted := AddressPaths(c, stores[c].subscribers.Keys);
              && got <= Sendable(wanted, network)
              && (ok <==> forall p :: p in wanted ==> network(p) != Refused)
              && (ok ==> got == Sendable(wanted, network))
    {
      var remaining := stores[c].GetAddresses();
      ghost var server, addresses, sent := publisher.server, remaining, AddressPaths(c, {});
      got, ok := {}, true;
      HoldingMore(server, uid, {}, {});
      assert Sendable(sent, network) == got;
      hide PathOf, AddressPaths, Sendable, Holding;
      while remaining != {}
        invariant remaining <= addresses
        invariant got == Sendable(sent, network)
        invariant sent == AddressPaths(c, addresses - remaining)
        invariant forall p :: p in sent ==> network(p) != Refused
        invariant uid in publisher.server && publisher.server == Holding(server, uid, got)
        decreases remaining
      {
        var address :| address in remaining;
        var path := PathOf(OfAddress(c, address));
        PathsGrow(c, addresses - remaining, address);
        SendableGrow(sent, path, network);
        remaining := remaining - {address};
        assert addresses - remaining == addresses - (remaining + {address}) + {address};
        PathsWithin(c, addresses - remaining, addresses, network);
        sent := sent + {path};
        HoldingMore(server, uid, got, if network(path) == Sent then {path} else {});
        ok := SubscribeTo(path, network(path));
        got := Sendable(sent, network);
        if !ok {
          assert path in AddressPaths(c, addresses);
          return;
        }
      }
      assert addresses - remaining == addresses;
    }
  }

  /** What the server holds once it has received more paths for a uid. */
  ghost function Holding(server: map<Uid, set<Path>>, uid: Uid, more: set<Path>): map<Uid, set<Path>>
    requires uid in server
  {
    server[uid := server[uid] + more]
  }

  lemma HoldingMore(server: map<Uid, set<Path>>, uid: Uid, some: set<Path>, more: set<Path>)
    requires uid in server
    ensures Holding(server, uid, {}) == server
    ensures uid in Holding(server, uid, some)
    ensures Holding(Holding(server, uid, some), uid, more) == Holding(server, uid, some + more)
  {
    assert server[uid] + {} == server[uid];
    assert server[uid] + some + more == server[uid] + (some + more);
  }

  /** The paths of a channel's addresses. */
  function AddressPaths(c: Channel, addresses: set<Address>): set<Path> {
    set a | a in addresses :: PathOf(OfAddress(c, a))
  }

  function Sendable(wanted: set<Path>, network: Path -> Outcome): set<Path> {
    set p | p in wanted && network(p) == Sent
  }

  /** The paths a reconnect means to subscribe to by the time it has gone through the first
      channels. */
  function Wanted(s: Client, channels: nat): set<Path>
    requires channels <= |CHANNEL_ORDER|
  {
    if channels == 0 then if s.block != {} then {PATH_BLOCK} else {}
    else
      var c := CHANNEL_ORDER[channels - 1];
      Wanted(s, channels - 1) + AddressPaths(c, Entries(s, c).Keys)
  }

  /** What the paths sent say about the topics listed. */
  lemma Resubscribed(s: Client, uid: Uid, network: Path -> Outcome, ok: bool, received: set<Path>, complete: bool)
    requires uid !in s.server && received <= Sendable(Wanted(s, |CHANNEL_ORDER|), network)
    requires ok <==> forall p :: p in Wanted(s, |CHANNEL_ORDER|) ==> network(p) != Refused
    requires ok ==> received == Sendable(Wanted(s, |CHANNEL_ORDER|), network)
    requires complete <==> ok && forall p :: p in Wanted(s, |CHANNEL_ORDER|) ==> network(p) == Sent
    ensures Enabled(s, Event.Reconnect(Some(uid), received, complete))
    ensures ok <==> forall t :: Listed(s, t) ==> network(PathOf(t)) != Refused
    ensures ok ==> forall t :: Listed(s, t) ==> (PathOf(t) in received <==> network(PathOf(t)) == Sent)
    ensures complete <==> ok && forall t :: Listed(s, t) ==> network(PathOf(t)) == Sent
  {
    var wanted := Wanted(s, |CHANNEL_ORDER|);
    WantedIsTarget(s);
    hide Wanted, PathOf, Listed;
    forall t | Listed(s, t) ensures PathOf(t) in wanted { assert Target(s, PathOf(t)); }
    forall p | p in wanted ensures exists t :: Listed(s, t) && PathOf(t) == p { assert Target(s, p); }
  }

  lemma ChannelSent(s: Client, i: nat, network: Path -> Outcome, received: set<Path>, got: set<Path>, ok: bool)
    requires i < |CHANNEL_ORDER| && received == Sendable(Wanted(s, i), network)
    requires forall p :: p in Wanted(s, i) ==> network(p) != Refused
    requires var more := AddressPaths(CHANNEL_ORDER[i], Entries(s, CHANNEL_ORDER[i]).Keys);
             && got <= Sendable(more, network)
             && (ok <==> forall p :: p in more ==> network(p) != Refused)
             && (ok ==> got == Sendable(more, network))
    ensures received + got <= Sendable(Wanted(s, |CHANNEL_ORDER|), network)
    ensures ok <==> forall p :: p in Wanted(s, i + 1) ==> network(p) != Refused
    ensures ok ==> received + got == Sendable(Wanted(s, i + 1), network)
    ensures !ok ==> exists p :: p in Wanted(s, |CHANNEL_ORDER|) && network(p) == Refused
  {
    var more := AddressPaths(CHANNEL_ORDER[i], Entries(s, CHANNEL_ORDER[i]).Keys);
    assert Wanted(s, i + 1) == Wanted(s, i) + more;
    WantedGrows(s, i + 1, |CHANNEL_ORDER|, network);
    SendableJoin(Wanted(s, i), more, network);
    hide Wanted, AddressPaths, Entries, Sendable;
  }

  /** An addition announces, and stores the callbacks beside those the announced state has. */
  lemma AddInSteps(s: Client, t: Topic, added: seq<Handler>, outcome: Outcome)
    requires added != []
    ensures var announced := Announced(s, t, outcome);
            AfterAdd(s, t, added, outcome)
            == if Stores(s, t, added, outcome) then WithHandlers(announced, t, Handlers(announced, t) + SetOf(added))
               else announced
    ensures Stores(s, t, added, outcome) <==> Handlers(s, t) != {} || outcome != Refused
  {
    hide PathOf, NameOf, RouteOf, SetOf, WithHandlers;
    AnnouncedShape(s, t, outcome);
    SameStores(s, Announced(s, t, outcome), t);
  }

  lemma NoConnection(s: Client)
    ensures Enabled(s, Event.Reconnect(None, {}, false))
  {}

  lemma StoredIn(s: Client, s': Client, c: Channel, address: Address, added: seq<Handler>)
    requires s' == s.(stores := s.stores[c := Entries(s, c)[address := HandlersAt(Entries(s, c), address) + SetOf(added)]])
    ensures var t := OfAddress(c, address); s' == WithHandlers(s, t, Handlers(s, t) + SetOf(added))
  {
  }

  lemma PathsGrow(c: Channel, addresses: set<Address>, a: Address)
    ensures AddressPaths(c, addresses + {a}) == AddressPaths(c, addresses) + {PathOf(OfAddress(c, a))}
  {}

  lemma PathsWithin(c: Channel, some: set<Address>, all: set<Address>, network: Path -> Outcome)
    requires some <= all
    ensures AddressPaths(c, some) <= AddressPaths(c, all)
    ensures Sendable(AddressPaths(c, some), network) <= Sendable(AddressPaths(c, all), network)
  {}

  lemma SendableGrow(wanted: set<Path>, p: Path, network: Path -> Outcome)
    ensures Sendable(wanted + {p}, network) == Sendable(wanted, network) + if network(p) == Sent then {p} else {}
  {}

  lemma SendableJoin(some: set<Path>, more: set<Path>, network: Path -> Outcome)
    ensures Sendable(some + more, network) == Sendable(some, network) + Sendable(more, network)
  {}

  lemma {:induction false} WantedGrows(s: Client, some: nat, all: nat, network: Path -> Outcome)
    requires some <= all <= |CHANNEL_ORDER|
    ensures Wanted(s, some) <= Wanted(s, all)
    ensures Sendable(Wanted(s, some), network) <= Sendable(Wanted(s, all), network)
  {
    if some < all { WantedGrows(s, some, all - 1, network); }
  }

  lemma {:induction false} WantedSame(s: Client, s': Client, channels: nat)
    requires channels <= |CHANNEL_ORDER| && s.block == s'.block && s.stores == s'.stores
    ensures Wanted(s, channels) == Wanted(s', channels)
  {
    if channels > 0 { WantedSame(s, s', channels - 1); }
  }

  lemma {:induction false} WantedBy(s: Client, channels: nat, p: Path)
    requires channels <= |CHANNEL_ORDER|
    ensures p in Wanted(s, channels) <==>
            exists t :: Listed(s, t) && PathOf(t) == p && (t.Block? || t.channel in CHANNEL_ORDER[..channels])
  {
    if channels == 0 {
      assert Listed(s, Block) <==> s.block != {};
      assert PathOf(Block) == PATH_BLOCK;
    } else {
      var c := CHANNEL_ORDER[channels - 1];
      WantedBy(s, channels - 1, p);
      assert CHANNEL_ORDER[..channels] == CHANNEL_ORDER[..channels - 1] + [c];
      if p in AddressPaths(c, Entries(s, c).Keys) {
        var a :| a in Entries(s, c) && p == PathOf(OfAddress(c, a));
        assert Listed(s, OfAddress(c, a));
      }
    }
  }

  /** Going through every channel covers every topic. */
  lemma WantedIsTarget(s: Client)
    ensures forall p :: p in Wanted(s, |CHANNEL_ORDER|) <==> Target(s, p)
  {
    assert CHANNEL_ORDER[..|CHANNEL_ORDER|] == CHANNEL_ORDER;
    forall p ensures p in Wanted(s, |CHANNEL_ORDER|) <==> Target(s, p) {
      WantedBy(s, |CHANNEL_ORDER|, p);
      if Target(s, p) {
        var t :| Listed(s, t) && PathOf(t) == p;
        if t.OfAddress? { EveryChannel(t.channel); }
      }
    }
  }
}
