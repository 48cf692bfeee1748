/** The subscription protocol: what the client believes, what its router knows and what the
    server holds, over every run of additions, deliveries, losses and reconnects. */
module Subscriptions {
  import opened Wrappers
  import opened Subscribers

  type Uid = string
  type Path = string

  datatype Channel =
    | ConfirmedAdded | UnconfirmedAdded | UnconfirmedRemoved | Status
    | PartialAdded | PartialRemoved | Cosignature

  /** The order in which a reconnect goes through the channels. */
  const CHANNEL_ORDER: seq<Channel> :=
    [ConfirmedAdded, Cosignature, PartialAdded, PartialRemoved, Status, UnconfirmedAdded, UnconfirmedRemoved]

  const CHANNELS: set<Channel> := set c | c in CHANNEL_ORDER

  datatype Topic = Block | OfAddress(channel: Channel, address: Address)

  /** Which handler serves a channel name. */
  datatype Route = BlockRoute | AddressRoute(channel: Channel)

  // ---------------------------------------------------------------------------
  // Paths
  // ---------------------------------------------------------------------------

  const PATH_BLOCK: Path := "block"

  function ChannelPath(c: Channel): Path {
    match c
    case ConfirmedAdded => "confirmedAdded"
    case UnconfirmedAdded => "unconfirmedAdded"
    case UnconfirmedRemoved => "unconfirmedRemoved"
    case Status => "status"
    case PartialAdded => "partialAdded"
    case PartialRemoved => "partialRemoved"
    case Cosignature => "cosignature"
  }

  function RouteOf(t: Topic): Route {
    match t
    case Block => BlockRoute
    case OfAddress(c, _) => AddressRoute(c)
  }

  /** The name under which the topic's handler is registered. */
  function NameOf(t: Topic): Path {
    match t
    case Block => PATH_BLOCK
    case OfAddress(c, _) => ChannelPath(c)
  }

  /** The path to which the client subscribes. */
  function PathOf(t: Topic): Path {
    match t
    case Block => PATH_BLOCK
    case OfAddress(c, address) => ChannelPath(c) + "/" + address
  }

  /** The path from which the router unsubscribes, formatted from the message itself. */
  function Format(route: Route, name: Path, address: Address): Path {
    match route
    case BlockRoute => PATH_BLOCK
    case AddressRoute(_) => name + "/" + address
  }

  function TopicOf(route: Route, address: Address): Topic {
    match route
    case BlockRoute => Block
    case AddressRoute(c) => OfAddress(c, address)
  }

  lemma NoSlash(c: Channel)
    ensures '/' !in ChannelPath(c) && ChannelPath(c) != PATH_BLOCK
  {
    match c {
      case ConfirmedAdded =>
      case UnconfirmedAdded =>
      case UnconfirmedRemoved =>
      case Status =>
      case PartialAdded =>
      case PartialRemoved =>
      case Cosignature =>
    }
  }

  /** What comes before the first slash. */
  function UpToSlash(p: Path): Path {
    if p == "" || p[0] == '/' then "" else [p[0]] + UpToSlash(p[1..])
  }

  lemma {:induction false} SlashFound(name: Path, rest: Path)
    requires '/' !in name
    ensures UpToSlash(name + "/" + rest) == name
  {
    if name != "" {
      assert (name + "/" + rest)[1..] == name[1..] + "/" + rest;
      SlashFound(name[1..], rest);
    }
  }

  lemma ChannelPathsDistinct(c: Channel, d: Channel)
    ensures c != d ==> ChannelPath(c) != ChannelPath(d)
  {
    if c != d && |ChannelPath(c)| == |ChannelPath(d)| {
      assert ChannelPath(c)[0] != ChannelPath(d)[0];
    }
  }

  /** No two topics share a path, whatever the addresses are. */
  lemma PathsDistinct(t: Topic, u: Topic)
    ensures PathOf(t) == PathOf(u) <==> t == u
  {
    match (t, u) {
      case (Block, Block) =>
      case (OfAddress(c, a), OfAddress(d, b)) =>
        NoSlash(c);
        NoSlash(d);
        SlashFound(ChannelPath(c), a);
        SlashFound(ChannelPath(d), b);
        ChannelPathsDistinct(c, d);
        assert PathOf(t)[|ChannelPath(c)| + 1..] == a && PathOf(u)[|ChannelPath(d)| + 1..] == b;
      case (OfAddress(c, a), Block) => SlashIn(c, a);
      case (Block, OfAddress(c, a)) => SlashIn(c, a);
    }
  }

  lemma SlashIn(c: Channel, a: Address)
    ensures '/' in PathOf(OfAddress(c, a))
  {
    assert PathOf(OfAddress(c, a))[|ChannelPath(c)|] == '/';
  }

  lemma NamesDistinct(t: Topic, u: Topic)
    ensures RouteOf(t) != RouteOf(u) ==> NameOf(t) != NameOf(u)
  {
    match (t, u) {
      case (Block, Block) =>
      case (OfAddress(c, _), OfAddress(d, _)) => ChannelPathsDistinct(c, d);
      case (OfAddress(c, _), Block) => NoSlash(c);
      case (Block, OfAddress(c, _)) => NoSlash(c);
    }
  }

  // ---------------------------------------------------------------------------
  // State
  // ---------------------------------------------------------------------------

  /** `ready` says that the last reconnect succeeded and the connection has not been lost
      since; `server` is what the other side holds for every uid it handed out. */
  datatype Client = Client(
    uid: Uid,
    routerUid: Uid,
    block: set<Handler>,
    stores: map<Channel, map<Address, set<Handler>>>,
    routes: map<Path, Route>,
    server: map<Uid, set<Path>>,
    ready: bool)

  function Entries(s: Client, c: Channel): map<Address, set<Handler>> {
    if c in s.stores then s.stores[c] else map[]
  }

  function Handlers(s: Client, t: Topic): set<Handler> {
    match t
    case Block => s.block
    case OfAddress(c, address) => HandlersAt(Entries(s, c), address)
  }

  function WithHandlers(s: Client, t: Topic, handlers: set<Handler>): Client {
    match t
    case Block => s.(block := handlers)
    case OfAddress(c, address) => s.(stores := s.stores[c := Entries(s, c)[address := handlers]])
  }

  /** The store has an entry for the topic, perhaps an emptied one. */
  predicate Listed(s: Client, t: Topic) {
    match t
    case Block => s.block != {}
    case OfAddress(c, address) => address in Entries(s, c)
  }

  function Session(s: Client, uid: Uid): set<Path> { if uid in s.server then s.server[uid] else {} }

  predicate Subscribed(s: Client, t: Topic) { PathOf(t) in Session(s, s.uid) }

  /** What becomes of one published message: received, accepted by a dead connection, or
      refused with an error. */
  datatype Outcome = Sent | Lost | Refused

  function Subscribe(s: Client, uid: Uid, path: Path, outcome: Outcome): Client {
    if outcome == Sent then s.(server := s.server[uid := Session(s, uid) + {path}]) else s
  }

  function Unsubscribe(s: Client, uid: Uid, path: Path, outcome: Outcome): Client {
    if outcome == Sent then s.(server := s.server[uid := Session(s, uid) - {path}]) else s
  }

  function Start(uid: Uid): Client {
    Client(uid, uid, {}, map c | c in CHANNELS :: map[], map[], map[uid := {}], true)
  }

  // ---------------------------------------------------------------------------
  // Steps
  // ---------------------------------------------------------------------------

  /** `Reconnect` carries the connection that was opened, if any, the paths the server
      received and whether that is every one the client meant to send. */
  datatype Event =
    | Add(topic: Topic, added: seq<Handler>, outcome: Outcome)
    | Message(name: Path, address: Address, verdict: Handler -> bool, outcome: Outcome)
    | Lose
    | Reconnect(connection: Option<Uid>, received: set<Path>, complete: bool)

  /** Registers the topic's handler unless its name has one. */
  function Registered(s: Client, t: Topic): Client {
    if NameOf(t) in s.routes then s else s.(routes := s.routes[NameOf(t) := RouteOf(t)])
  }

  /** Then subscribes, if the topic has no callbacks yet. */
  function Announced(s: Client, t: Topic, outcome: Outcome): Client {
    if Handlers(s, t) == {} then Subscribe(Registered(s, t), s.uid, PathOf(t), outcome) else Registered(s, t)
  }

  /** Only then are the callbacks stored. */
  function AfterAdd(s: Client, t: Topic, added: seq<Handler>, outcome: Outcome): Client {
    if added == [] then s
    else if Handlers(s, t) == {} && outcome == Refused then Announced(s, t, outcome)
    else WithHandlers(Announced(s, t, outcome), t, Handlers(s, t) + SetOf(added))
  }

  /** Whether the delivery leaves the topic without callbacks, having found some. */
  predicate Empties(s: Client, t: Topic, verdict: Handler -> bool) {
    Handlers(s, t) != {} && Survivors(Handlers(s, t), verdict) == {}
  }

  function AfterMessage(s: Client, name: Path, address: Address, verdict: Handler -> bool, outcome: Outcome): Client
    requires name in s.routes
  {
    var t := TopicOf(s.routes[name], address);
    if Handlers(s, t) == {} then s
    else
      var delivered := WithHandlers(s, t, Survivors(Handlers(s, t), verdict));
      if Empties(s, t, verdict) then Unsubscribe(delivered, s.routerUid, Format(s.routes[name], name, address), outcome)
      else delivered
  }

  /** What a reconnect subscribes to: the block topic while it has callbacks, and every
      address a store lists. */
  ghost predicate Target(s: Client, p: Path) { exists t :: Listed(s, t) && PathOf(t) == p }

  function AfterReconnect(s: Client, connection: Option<Uid>, received: set<Path>, complete: bool): Client {
    match connection
    case None => s
    case Some(uid) =>
      s.(uid := uid, routerUid := uid, server := s.server[uid := received], ready := complete)
  }

  /** A lost message needs a lost connection; a message for a name without a handler and an
      unsubscription that is refused end the run; every connection gets a new uid. */
  ghost predicate Enabled(s: Client, e: Event) {
    match e
    case Add(_, _, outcome) => s.ready ==> outcome != Lost
    case Message(name, address, verdict, outcome) =>
      && name in s.routes
      && (s.ready ==> outcome != Lost)
      && (outcome == Refused ==> !Empties(s, TopicOf(s.routes[name], address), verdict))
    case Lose => true
    case Reconnect(connection, received, complete) =>
      connection.Some? ==>
        && connection.value !in s.server
        && (forall p :: p in received ==> Target(s, p))
        && (complete ==> forall t :: Listed(s, t) ==> PathOf(t) in received)
  }

  function Next(s: Client, e: Event): Client
    requires e.Message? ==> e.name in s.routes
  {
    match e
    case Add(t, added, outcome) => AfterAdd(s, t, added, outcome)
    case Message(name, address, verdict, outcome) => AfterMessage(s, name, address, verdict, outcome)
    case Lose => s.(ready := false)
    case Reconnect(connection, received, complete) => AfterReconnect(s, connection, received, complete)
  }

  /** Each event is possible in the state its predecessors lead to. */
  ghost predicate Possible(s: Client, events: seq<Event>)
    decreases |events|, 0
  {
    events != [] ==>
      && Possible(s, events[..|events| - 1])
      && Enabled(After(s, events[..|events| - 1]), events[|events| - 1])
  }

  ghost function After(s: Client, events: seq<Event>): Client
    requires Possible(s, events)
    decreases |events|, 1
  {
    if events == [] then s else Next(After(s, events[..|events| - 1]), events[|events| - 1])
  }

  // ---------------------------------------------------------------------------
  // What every run keeps
  // ---------------------------------------------------------------------------

  ghost predicate Invariant(s: Client) {
    && s.uid == s.routerUid && s.uid in s.server
    && NamesServed(s) && EntriesServed(s) && PathsServed(s)
    && (s.ready ==> NobodyWaits(s))
    // block is exact
    && (s.ready && Subscribed(s, Block) ==> s.block != {})
  }

  /** Names are registered for the handler that serves them. */
  ghost predicate NamesServed(s: Client) {
    forall p :: p in s.routes ==> exists t :: NameOf(t) == p && RouteOf(t) == s.routes[p]
  }

  /** A topic with an entry has a handler. */
  ghost predicate EntriesServed(s: Client) { forall t :: Listed(s, t) ==> NameOf(t) in s.routes }

  /** Every path the server holds belongs to a topic that has a handler. */
  ghost predicate PathsServed(s: Client) {
    forall p :: p in Session(s, s.uid) ==> exists t :: PathOf(t) == p && Known(s, t)
  }

  /** Every topic with callbacks is subscribed. */
  ghost predicate NobodyWaits(s: Client) { forall t :: Handlers(s, t) != {} ==> Subscribed(s, t) }

  /** The topic's name is registered and, for an address, its store has an entry. */
  predicate Known(s: Client, t: Topic) { NameOf(t) in s.routes && (t.OfAddress? ==> Listed(s, t)) }

  lemma WithHandlersAt(s: Client, t: Topic, handlers: set<Handler>, u: Topic)
    ensures Handlers(WithHandlers(s, t, handlers), u) == if u == t then handlers else Handlers(s, u)
    ensures Listed(WithHandlers(s, t, handlers), u) <==>
            if u != t then Listed(s, u) else t.OfAddress? || handlers != {}
  {}

  /** A registered name leads to the store of the topics that carry it, and the path the
      router formats is the path the client subscribed to. */
  lemma RouteFinds(s: Client, name: Path, address: Address)
    requires Invariant(s) && name in s.routes
    ensures NameOf(TopicOf(s.routes[name], address)) == name
    ensures Format(s.routes[name], name, address) == PathOf(TopicOf(s.routes[name], address))
  {
    var t :| NameOf(t) == name && RouteOf(t) == s.routes[name];
  }

  lemma SetOfMember(added: seq<Handler>)
    requires added != []
    ensures SetOf(added) != {}
  {
    assert added[0] in SetOf(added);
  }

  predicate Stores(s: Client, t: Topic, added: seq<Handler>, outcome: Outcome) {
    added != [] && (Handlers(s, t) != {} || outcome != Refused)
  }

  lemma SameStores(s: Client, s': Client, t: Topic)
    requires s.block == s'.block && s.stores == s'.stores
    ensures Handlers(s, t) == Handlers(s', t) && (Listed(s, t) <==> Listed(s', t))
  {}

  lemma AnnouncedShape(s: Client, t: Topic, outcome: Outcome)
    ensures var s' := Announced(s, t, outcome);
            && s'.uid == s.uid && s'.routerUid == s.routerUid && s'.ready == s.ready
            && s'.block == s.block && s'.stores == s.stores
            && (s'.routes == s.routes[NameOf(t) := RouteOf(t)] || s'.routes == s.routes)
            && NameOf(t) in s'.routes
            && s'.server == if Handlers(s, t) == {} && outcome == Sent
                            then s.server[s.uid := Session(s, s.uid) + {PathOf(t)}] else s.server
  {
    hide PathOf, NameOf, RouteOf, Handlers;
    var registered := Registered(s, t);
    assert registered == s.(routes := registered.routes);
    assert registered.routes == s.routes[NameOf(t) := RouteOf(t)] || registered.routes == s.routes;
    assert NameOf(t) in registered.routes;
    hide Registered;
  }

  /** What one addition changes in the stores, topic by topic. */
  lemma AddStores(s: Client, t: Topic, added: seq<Handler>, outcome: Outcome, u: Topic)
    ensures var s' := AfterAdd(s, t, added, outcome);
            var stored := u == t && Stores(s, t, added, outcome);
            && Handlers(s', u) == (if stored then Handlers(s, t) + SetOf(added) else Handlers(s, u))
            && (Listed(s', u) <==> Listed(s, u) || stored)
  {
    hide Announced, SetOf, Listed, Handlers, WithHandlers;
    var announced := Announced(s, t, outcome);
    AnnouncedShape(s, t, outcome);
    SameStores(s, announced, t);
    SameStores(s, announced, u);
    if added != [] {
      SetOfMember(added);
      WithHandlersAt(announced, t, Handlers(s, t) + SetOf(added), u);
    }
  }

  /** What one addition changes, topic by topic. */
  lemma AddEffect(s: Client, t: Topic, added: seq<Handler>, outcome: Outcome, u: Topic)
    ensures var s' := AfterAdd(s, t, added, outcome);
            var stored := u == t && Stores(s, t, added, outcome);
            && Handlers(s', u) == (if stored then Handlers(s, t) + SetOf(added) else Handlers(s, u))
            && (Listed(s', u) <==> Listed(s, u) || stored)
            && (Subscribed(s', u) <==> Subscribed(s, u) || (stored && Handlers(s, t) == {} && outcome == Sent))
  {
    AddStores(s, t, added, outcome, u);
    AnnouncedShape(s, t, outcome);
    PathsDistinct(t, u);
    hide PathOf, NameOf, RouteOf, SetOf, Handlers, Listed, Announced;
  }

  /** What one delivery changes in the stores, topic by topic. */
  lemma MessageStores(
    s: Client, name: Path, address: Address, verdict: Handler -> bool, outcome: Outcome, u: Topic)
    requires name in s.routes
    ensures var s' := AfterMessage(s, name, address, verdict, outcome);
            var t := TopicOf(s.routes[name], address);
            && Handlers(s', u) == (if u == t then Survivors(Handlers(s, t), verdict) else Handlers(s, u))
            && (Listed(s', u) <==> if u.Block? then Handlers(s', u) != {} else Listed(s, u))
  {
    hide Format, Session, TopicOf;
    var t := TopicOf(s.routes[name], address);
    if Handlers(s, t) != {} {
      var delivered := WithHandlers(s, t, Survivors(Handlers(s, t), verdict));
      WithHandlersAt(s, t, Survivors(Handlers(s, t), verdict), u);
      var s' := AfterMessage(s, name, address, verdict, outcome);
      assert s'.block == delivered.block && s'.stores == delivered.stores;
      SameStores(delivered, s', u);
      assert t.OfAddress? ==> Listed(s, t);
    }
  }

  /** What one delivery changes, topic by topic. */
  lemma MessageEffect(
    s: Client, name: Path, address: Address, verdict: Handler -> bool, outcome: Outcome, u: Topic)
    requires Invariant(s) && name in s.routes
    ensures var s' := AfterMessage(s, name, address, verdict, outcome);
            var t := TopicOf(s.routes[name], address);
            && Handlers(s', u) == (if u == t then Survivors(Handlers(s, t), verdict) else Handlers(s, u))
            && (Listed(s', u) <==> if u.Block? then Handlers(s', u) != {} else Listed(s, u))
            && (Subscribed(s', u) <==> Subscribed(s, u) && !(u == t && Empties(s, t, verdict) && outcome == Sent))
  {
    MessageStores(s, name, address, verdict, outcome, u);
    RouteFinds(s, name, address);
    PathsDistinct(TopicOf(s.routes[name], address), u);
    assert s.uid == s.routerUid;
    hide PathOf, NameOf, RouteOf, Format, Invariant, Handlers, Listed, TopicOf, Survivors;
  }

  /** An addition registers at most the topic's own name, and subscribes at most its path. */
  lemma AddShape(s: Client, t: Topic, added: seq<Handler>, outcome: Outcome)
    requires s.uid in s.server
    ensures var s' := AfterAdd(s, t, added, outcome);
            && s'.uid == s.uid && s'.routerUid == s.routerUid && s'.ready == s.ready && s.uid in s'.server
            && (s'.routes == s.routes || s'.routes == s.routes[NameOf(t) := RouteOf(t)])
            && (added != [] ==> NameOf(t) in s'.routes)
            && (s.routes.Keys <= s'.routes.Keys)
            && (forall p :: p in Session(s', s.uid) ==>
                  p in Session(s, s.uid)
                  || (p == PathOf(t) && added != [] && Handlers(s, t) == {} && outcome == Sent))
  {
    AnnouncedShape(s, t, outcome);
    hide PathOf, NameOf, RouteOf, SetOf, Handlers, Announced;
  }

  lemma AddKnown(s: Client, t: Topic, added: seq<Handler>, outcome: Outcome, u: Topic)
    requires s.uid in s.server && (Known(s, u) || (u == t && added != [] && outcome == Sent))
    ensures Known(AfterAdd(s, t, added, outcome), u)
  {
    AddShape(s, t, added, outcome);
    AddEffect(s, t, added, outcome, u);
    hide AfterAdd, NameOf, RouteOf, Session, SetOf, PathOf, Handlers;
  }

  lemma AddKeepsEntries(s: Client, t: Topic, added: seq<Handler>, outcome: Outcome)
    requires s.uid in s.server && EntriesServed(s)
    ensures EntriesServed(AfterAdd(s, t, added, outcome))
  {
    var s' := AfterAdd(s, t, added, outcome);
    AddShape(s, t, added, outcome);
    hide AfterAdd, PathOf, NameOf, RouteOf, SetOf, Session, Handlers;
    forall u ensures Listed(s', u) ==> NameOf(u) in s'.routes {
      AddEffect(s, t, added, outcome, u);
    }
  }

  lemma AddKeepsPaths(s: Client, t: Topic, added: seq<Handler>, outcome: Outcome)
    requires s.uid in s.server && PathsServed(s)
    ensures PathsServed(AfterAdd(s, t, added, outcome))
  {
    var s' := AfterAdd(s, t, added, outcome);
    AddShape(s, t, added, outcome);
    hide AfterAdd, PathOf, NameOf, RouteOf, SetOf, Session, Handlers, Known;
    forall p | p in Session(s', s'.uid) ensures exists u :: PathOf(u) == p && Known(s', u) {
      var u := t;
      if p in Session(s, s.uid) {
        u :| PathOf(u) == p && Known(s, u);
      }
      AddKnown(s, t, added, outcome, u);
    }
  }

  lemma AddKeepsServing(s: Client, t: Topic, added: seq<Handler>, outcome: Outcome)
    requires s.ready && NobodyWaits(s) && outcome != Lost
    requires Subscribed(s, Block) ==> s.block != {}
    ensures var s' := AfterAdd(s, t, added, outcome);
            NobodyWaits(s') && (Subscribed(s', Block) ==> s'.block != {})
  {
    var s' := AfterAdd(s, t, added, outcome);
    if added != [] { SetOfMember(added); }
    assert Handlers(s', Block) == s'.block && Handlers(s, Block) == s.block;
    AddEffect(s, t, added, outcome, Block);
    hide AfterAdd, PathOf, SetOf, Subscribed, Handlers;
    forall u ensures Handlers(s', u) != {} ==> Subscribed(s', u) {
      AddEffect(s, t, added, outcome, u);
    }
  }

  lemma AddKeeps(s: Client, t: Topic, added: seq<Handler>, outcome: Outcome)
    requires Invariant(s) && Enabled(s, Add(t, added, outcome))
    ensures Invariant(AfterAdd(s, t, added, outcome))
  {
    AddShape(s, t, added, outcome);
    AddKeepsEntries(s, t, added, outcome);
    AddKeepsPaths(s, t, added, outcome);
    if s.ready { AddKeepsServing(s, t, added, outcome); }
    hide AfterAdd, PathOf, NameOf, RouteOf, SetOf, Session, EntriesServed, PathsServed, NobodyWaits, Subscribed;
  }

  lemma MessageKeeps(s: Client, name: Path, address: Address, verdict: Handler -> bool, outcome: Outcome)
    requires Invariant(s) && Enabled(s, Message(name, address, verdict, outcome))
    ensures Invariant(AfterMessage(s, name, address, verdict, outcome))
  {
    var s' := AfterMessage(s, name, address, verdict, outcome);
    var t := TopicOf(s.routes[name], address);
    assert Session(s', s'.uid) <= Session(s, s.uid) && s'.routes == s.routes && s.uid in s'.server;
    hide AfterMessage, PathOf, NameOf, RouteOf, SetOf, Session, Survivors;
    MessageEffect(s, name, address, verdict, outcome, Block);
    forall u
      ensures (Listed(s', u) ==> Listed(s, u)) && (Known(s, u) ==> Known(s', u))
      ensures s'.ready && Handlers(s', u) != {} ==> Subscribed(s', u) {
      MessageEffect(s, name, address, verdict, outcome, u);
      SurvivorsOfNone(verdict);
    }
    hide Listed, Handlers, Subscribed, Known;
    forall p | p in Session(s', s'.uid) ensures exists u :: PathOf(u) == p && Known(s', u) {
      var u :| PathOf(u) == p && Known(s, u);
    }
  }

  lemma SurvivorsOfNone(verdict: Handler -> bool)
    ensures Survivors({}, verdict) == {}
  {}

  lemma LoseKeeps(s: Client)
    requires Invariant(s)
    ensures Invariant(s.(ready := false))
  {
    var s' := s.(ready := false);
    forall t ensures Known(s, t) ==> Known(s', t) && (Listed(s', t) ==> Listed(s, t)) {}
    assert Session(s', s'.uid) == Session(s, s.uid);
  }

  lemma ReconnectKeeps(s: Client, connection: Option<Uid>, received: set<Path>, complete: bool)
    requires Invariant(s) && Enabled(s, Reconnect(connection, received, complete))
    ensures Invariant(AfterReconnect(s, connection, received, complete))
  {
    var s' := AfterReconnect(s, connection, received, complete);
    if connection.Some? {
      forall p | p in received ensures exists t :: PathOf(t) == p && Known(s', t) {
        assert Target(s, p);
        var t :| Listed(s, t) && PathOf(t) == p;
        assert Known(s', t);
      }
      forall t ensures s'.ready && Handlers(s', t) != {} ==> Subscribed(s', t) {
        assert Handlers(s', t) != {} ==> Listed(s, t);
      }
      if Subscribed(s', Block) { BlockTarget(s); }
    }
  }

  lemma BlockTarget(s: Client)
    ensures Target(s, PathOf(Block)) ==> s.block != {}
  {
    if t :| Listed(s, t) && PathOf(t) == PathOf(Block) { PathsDistinct(t, Block); }
  }

  // ---------------------------------------------------------------------------
  // Every run
  // ---------------------------------------------------------------------------

  /** Whatever happens, in whatever order: client and router agree on the uid; while the
      last reconnect stands every topic with callbacks is subscribed under it, and block is
      subscribed exactly while it has some; and a message for anything the server holds
      under that uid finds the handler of its own channel. */
  lemma {:induction false} EveryRun(uid: Uid, events: seq<Event>)
    requires Possible(Start(uid), events)
    ensures Invariant(After(Start(uid), events))
    decreases |events|
  {
    if events != [] {
      var before, e := events[..|events| - 1], events[|events| - 1];
      EveryRun(uid, before);
      var s := After(Start(uid), before);
      match e
      case Add(t, added, outcome) => AddKeeps(s, t, added, outcome);
      case Message(name, address, verdict, outcome) => MessageKeeps(s, name, address, verdict, outcome);
      case Lose => LoseKeeps(s);
      case Reconnect(connection, received, complete) => ReconnectKeeps(s, connection, received, complete);
    }
  }

  lemma SubscribersServed(uid: Uid, events: seq<Event>, t: Topic)
    requires Possible(Start(uid), events)
    ensures var s := After(Start(uid), events);
            && s.uid == s.routerUid
            && (s.ready && Handlers(s, t) != {} ==> Subscribed(s, t))
            && (s.ready ==> (Subscribed(s, Block) <==> s.block != {}))
            && (Subscribed(s, t) ==> NameOf(t) in s.routes && s.routes[NameOf(t)] == RouteOf(t))
  {
    EveryRun(uid, events);
    hide PathOf, NameOf, RouteOf;
    var s := After(Start(uid), events);
    assert s.block == Handlers(s, Block);
    if Subscribed(s, t) {
      var u :| PathOf(u) == PathOf(t) && Known(s, u);
      PathsDistinct(u, t);
      var v :| NameOf(v) == NameOf(t) && RouteOf(v) == s.routes[NameOf(t)];
      NamesDistinct(v, t);
    }
  }

  // ---------------------------------------------------------------------------
  // Which subscriptions outlive their callbacks
  // ---------------------------------------------------------------------------

  /** Subscribed, with nobody to call. */
  predicate Stale(s: Client, t: Topic) { Subscribed(s, t) && Handlers(s, t) == {} }

  predicate Quiet(e: Event) { e.Add? || e.Message? }

  predicate AllQuiet(events: seq<Event>) {
    events != [] ==> AllQuiet(events[..|events| - 1]) && Quiet(events[|events| - 1])
  }

  predicate Readds(e: Event, t: Topic) { e.Add? && e.topic == t && e.added != [] && e.outcome == Sent }

  predicate Readded(events: seq<Event>, t: Topic) {
    events != [] && (Readded(events[..|events| - 1], t) || Readds(events[|events| - 1], t))
  }

  lemma QuietStep(s: Client, e: Event, t: Topic)
    requires Invariant(s) && s.ready && Enabled(s, e) && Quiet(e)
    ensures Next(s, e).ready && Invariant(Next(s, e))
    ensures Stale(Next(s, e), t) <==> Stale(s, t) && !Readds(e, t)
  {
    assert Handlers(s, t) != {} ==> Subscribed(s, t);
    match e
    case Add(u, added, outcome) =>
      AddKeeps(s, u, added, outcome);
      AddShape(s, u, added, outcome);
      AddEffect(s, u, added, outcome, t);
      hide Invariant, AfterAdd, Subscribed, Handlers, SetOf, PathOf;
      if added != [] { SetOfMember(added); }
    case Message(name, address, verdict, outcome) =>
      MessageKeeps(s, name, address, verdict, outcome);
      assert Next(s, e).ready;
      MessageEffect(s, name, address, verdict, outcome, t);
      hide Invariant, AfterMessage, Subscribed, Handlers, PathOf, Survivors;
      SurvivorsOfNone(verdict);
  }

  /** Until the connection is lost, a topic is subscribed exactly while it has callbacks,
      unless it was left over at the beginning and never added again. */
  lemma {:induction false} QuietRun(s: Client, events: seq<Event>, t: Topic)
    requires Invariant(s) && s.ready && Possible(s, events) && AllQuiet(events)
    ensures var s' := After(s, events);
            && Invariant(s') && s'.ready
            && (Stale(s', t) <==> Stale(s, t) && !Readded(events, t))
            && (Subscribed(s', t) <==> Handlers(s', t) != {} || (Stale(s, t) && !Readded(events, t)))
    decreases |events|
  {
    hide Invariant, Enabled, Next, Readds, Quiet, Subscribed, Handlers;
    if events != [] {
      var before, e := events[..|events| - 1], events[|events| - 1];
      QuietRun(s, before, t);
      QuietStep(After(s, before), e, t);
    }
    Attends(After(s, events), t);
  }

  lemma Attends(s: Client, t: Topic)
    requires Invariant(s) && s.ready
    ensures Subscribed(s, t) <==> Handlers(s, t) != {} || Stale(s, t)
  {}

  /** With no loss and no reconnect since the client was made, nothing is left over. */
  lemma SubscribedExactly(uid: Uid, events: seq<Event>, t: Topic)
    requires Possible(Start(uid), events) && AllQuiet(events)
    ensures var s := After(Start(uid), events);
            Subscribed(s, t) <==> Handlers(s, t) != {}
  {
    EveryRun(uid, []);
    QuietRun(Start(uid), events, t);
  }

  // ---------------------------------------------------------------------------
  // What a reconnect subscribes to
  // ---------------------------------------------------------------------------

  /** At some moment of the run the topic had callbacks. */
  ghost predicate EverHadHandlers(s: Client, events: seq<Event>, t: Topic)
    requires Possible(s, events)
    decreases |events|
  {
    Handlers(After(s, events), t) != {} || (events != [] && EverHadHandlers(s, events[..|events| - 1], t))
  }

  /** The addresses a store lists are those that ever had callbacks: removal keeps the
      emptied entry. */
  lemma {:induction false} ListedIsHistory(uid: Uid, events: seq<Event>, t: Topic)
    requires Possible(Start(uid), events) && t.OfAddress?
    ensures Listed(After(Start(uid), events), t) <==> EverHadHandlers(Start(uid), events, t)
    decreases |events|
  {
    if events != [] {
      var before := events[..|events| - 1];
      ListedIsHistory(uid, before, t);
      EveryRun(uid, before);
      ListedStep(After(Start(uid), before), events[|events| - 1], t);
    }
  }

  lemma ListedStep(s: Client, e: Event, t: Topic)
    requires Invariant(s) && Enabled(s, e) && t.OfAddress?
    ensures Listed(Next(s, e), t) <==> Listed(s, t) || Handlers(Next(s, e), t) != {}
  {
    match e
    case Add(u, added, outcome) =>
      AddEffect(s, u, added, outcome, t);
      hide AfterAdd;
      if added != [] { SetOfMember(added); }
      hide SetOf;
    case Message(name, address, verdict, outcome) =>
      MessageEffect(s, name, address, verdict, outcome, t);
      SurvivorsOfNone(verdict);
      hide AfterMessage, Survivors;
    case Lose =>
    case Reconnect(_, _, _) =>
  }

  lemma ReconnectSubscribes(s: Client, connection: Uid, received: set<Path>, t: Topic)
    requires Enabled(s, Reconnect(Some(connection), received, true))
    ensures Subscribed(Next(s, Reconnect(Some(connection), received, true)), t) <==> Listed(s, t)
  {
    hide PathOf, Listed;
    assert Session(Next(s, Reconnect(Some(connection), received, true)), connection) == received;
    if PathOf(t) in received {
      assert Target(s, PathOf(t));
      var u :| Listed(s, u) && PathOf(u) == PathOf(t);
      PathsDistinct(t, u);
    }
  }

  ghost predicate Reconnects(uid: Uid, before: seq<Event>, connection: Uid, received: set<Path>) {
    && Possible(Start(uid), before)
    && Enabled(After(Start(uid), before), Reconnect(Some(connection), received, true))
  }

  ghost function AfterReconnecting(uid: Uid, before: seq<Event>, connection: Uid, received: set<Path>): Client
    requires Reconnects(uid, before, connection, received)
  {
    Next(After(Start(uid), before), Reconnect(Some(connection), received, true))
  }

  /** A successful reconnect subscribes to the addresses that ever had callbacks, and to
      block exactly if it has some now. */
  lemma ReconnectRestores(uid: Uid, before: seq<Event>, connection: Uid, received: set<Path>, t: Topic)
    requires Reconnects(uid, before, connection, received)
    ensures Subscribed(AfterReconnecting(uid, before, connection, received), t) <==>
            if t.Block? then After(Start(uid), before).block != {}
            else EverHadHandlers(Start(uid), before, t)
  {
    ReconnectSubscribes(After(Start(uid), before), connection, received, t);
    if t.OfAddress? { ListedIsHistory(uid, before, t); }
  }

  /** The whole story between two losses: a topic is subscribed while it has callbacks, and
      otherwise if it is an address that had some before the reconnect, had none at the
      reconnect, and has not been added since. */
  lemma SinceReconnect(
    uid: Uid, before: seq<Event>, connection: Uid, received: set<Path>, events: seq<Event>, t: Topic)
    requires Reconnects(uid, before, connection, received)
    requires Possible(AfterReconnecting(uid, before, connection, received), events) && AllQuiet(events)
    ensures var s := After(AfterReconnecting(uid, before, connection, received), events);
            Subscribed(s, t) <==>
              || Handlers(s, t) != {}
              || (&& t.OfAddress?
                  && EverHadHandlers(Start(uid), before, t)
                  && Handlers(After(Start(uid), before), t) == {}
                  && !Readded(events, t))
  {
    var s0 := After(Start(uid), before);
    var s1 := AfterReconnecting(uid, before, connection, received);
    EveryRun(uid, before);
    ReconnectKeeps(s0, Some(connection), received, true);
    ReconnectRestores(uid, before, connection, received, t);
    assert s1.ready && Handlers(s1, t) == Handlers(s0, t);
    assert t.Block? ==> Handlers(s0, t) == s0.block;
    hide Invariant, EverHadHandlers, Handlers, Subscribed, Readded, AllQuiet, Enabled, Next;
    QuietRun(s1, events, t);
  }

  /** Such subscriptions exist: one callback that leaves, and one reconnect. */
  lemma LeftOver(uid: Uid, connection: Uid, t: Topic, h: Handler) returns (events: seq<Event>)
    requires uid != connection && t.OfAddress?
    ensures Possible(Start(uid), events)
    ensures After(Start(uid), events).ready && Stale(After(Start(uid), events), t)
  {
    var add, leave := Add(t, [h], Sent), Message(NameOf(t), t.address, (x: Handler) => true, Sent);
    var reconnect := Reconnect(Some(connection), {PathOf(t)}, true);
    var s0 := Start(uid);
    var s1 := Next(s0, add);
    var s2 := Next(s1, leave);
    AfterLeaving(uid, t, h, leave.verdict);
    assert After(s0, []) == s0;
    assert Enabled(s0, add) && Enabled(s1, leave);
    EnabledAgain(s2, t, connection);
    var s3 := Next(s2, reconnect);
    assert s3.ready && Stale(s3, t);
    hide PathOf, ChannelPath, NameOf, AfterAdd, AfterMessage, AfterReconnect, Start, Listed, Enabled, Next, Stale;
    Extend(s0, [], add);
    assert [] + [add] == [add];
    Extend(s0, [add], leave);
    assert [add] + [leave] == [add, leave];
    Extend(s0, [add, leave], reconnect);
    events := [add, leave, reconnect];
    assert [add, leave] + [reconnect] == events;
  }

  lemma EnabledAgain(s: Client, t: Topic, connection: Uid)
    requires connection !in s.server && forall u :: Listed(s, u) <==> u == t
    ensures Enabled(s, Reconnect(Some(connection), {PathOf(t)}, true))
  {
    hide PathOf, Listed;
    assert Target(s, PathOf(t));
  }

  /** The states of a topic that gets one callback and loses it. */
  lemma AfterLeaving(uid: Uid, t: Topic, h: Handler, verdict: Handler -> bool)
    requires t.OfAddress? && verdict(h)
    ensures var s1 := AfterAdd(Start(uid), t, [h], Sent);
            && NameOf(t) in s1.routes
            && var s2 := AfterMessage(s1, NameOf(t), t.address, verdict, Sent);
            && s2.server.Keys == {uid} && s2.ready
            && Handlers(s2, t) == {} && forall u :: Listed(s2, u) <==> u == t
  {
    hide PathOf, ChannelPath, NameOf;
    var s0 := Start(uid);
    EveryRun(uid, []);
    assert Invariant(s0);
    var s1 := AfterAdd(s0, t, [h], Sent);
    AnnouncedShape(s0, t, Sent);
    assert s1.server.Keys == {uid} && s1.uid == s1.routerUid == uid && s1.ready;
    assert s1.routes == map[NameOf(t) := RouteOf(t)];
    hide AfterAdd, Invariant;
    var s2 := AfterMessage(s1, NameOf(t), t.address, verdict, Sent);
    assert s2.server.Keys == {uid};
    hide AfterMessage;
    forall u ensures (Listed(s2, u) <==> u == t) && Handlers(s2, t) == {} {
      Emptied(s0, t, h, verdict, u);
    }
  }

  /** A callback that comes and goes leaves its address listed. */
  lemma Emptied(s: Client, t: Topic, h: Handler, verdict: Handler -> bool, u: Topic)
    requires Invariant(s) && Handlers(s, t) == {} && t.OfAddress? && verdict(h)
    requires NameOf(t) in AfterAdd(s, t, [h], Sent).routes
    requires AfterAdd(s, t, [h], Sent).routes[NameOf(t)] == RouteOf(t)
    ensures var s2 := AfterMessage(AfterAdd(s, t, [h], Sent), NameOf(t), t.address, verdict, Sent);
            (Listed(s2, u) <==> if u.Block? then Handlers(s, Block) != {} else u == t || Listed(s, u))
            && Handlers(s2, t) == {}
  {
    var s1 := AfterAdd(s, t, [h], Sent);
    AddKeeps(s, t, [h], Sent);
    assert SetOf([h]) == {h};
    AddEffect(s, t, [h], Sent, u);
    AddEffect(s, t, [h], Sent, t);
    MessageEffect(s1, NameOf(t), t.address, verdict, Sent, u);
    MessageEffect(s1, NameOf(t), t.address, verdict, Sent, t);
    hide AfterAdd, AfterMessage, Invariant, NameOf, PathOf, SetOf;
  }

  lemma Extend(s: Client, events: seq<Event>, e: Event)
    requires Possible(s, events) && Enabled(After(s, events), e)
    ensures Possible(s, events + [e]) && After(s, events + [e]) == Next(After(s, events), e)
  {
    assert (events + [e])[..|events|] == events;
  }
}
