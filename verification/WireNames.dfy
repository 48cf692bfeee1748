/** The protocol in the names that travel on the wire, each written out: what an addition, a
    reconnect and a delivery do, for each channel by its own name. */
module WireNames {
  import opened Wrappers
  import opened Subscribers
  import opened Subscriptions

  /** The channel name in a topic's messages, and the path of its subscription. */
  ghost predicate Wire(t: Topic, name: Path, path: Path) {
    match t
    case Block => name == "block" && path == "block"
    case OfAddress(ConfirmedAdded, a) => name == "confirmedAdded" && path == "confirmedAdded/" + a
    case OfAddress(UnconfirmedAdded, a) => name == "unconfirmedAdded" && path == "unconfirmedAdded/" + a
    case OfAddress(UnconfirmedRemoved, a) => name == "unconfirmedRemoved" && path == "unconfirmedRemoved/" + a
    case OfAddress(Status, a) => name == "status" && path == "status/" + a
    case OfAddress(PartialAdded, a) => name == "partialAdded" && path == "partialAdded/" + a
    case OfAddress(PartialRemoved, a) => name == "partialRemoved" && path == "partialRemoved/" + a
    case OfAddress(Cosignature, a) => name == "cosignature" && path == "cosignature/" + a
  }

  lemma NamesOnTheWire(t: Topic, name: Path, path: Path)
    ensures Wire(t, name, path) <==> name == NameOf(t) && path == PathOf(t)
  {
    match t
    case Block =>
    case OfAddress(c, a) =>
      match c
      case ConfirmedAdded => assert "confirmedAdded" + "/" == "confirmedAdded/";
      case UnconfirmedAdded => assert "unconfirmedAdded" + "/" == "unconfirmedAdded/";
      case UnconfirmedRemoved => assert "unconfirmedRemoved" + "/" == "unconfirmedRemoved/";
      case Status => assert "status" + "/" == "status/";
      case PartialAdded => assert "partialAdded" + "/" == "partialAdded/";
      case PartialRemoved => assert "partialRemoved" + "/" == "partialRemoved/";
      case Cosignature => assert "cosignature" + "/" == "cosignature/";
  }

  lemma AllNames()
    ensures forall t: Topic, name, path :: Wire(t, name, path) <==> name == NameOf(t) && path == PathOf(t)
  {
    forall t: Topic, name, path ensures Wire(t, name, path) <==> name == NameOf(t) && path == PathOf(t) {
      NamesOnTheWire(t, name, path);
    }
  }

  /** `name` and `path` are the topic's.  A first addition adds the path to what the server
      holds, if it is sent, and nothing else ever is; the name gets the topic's handler
      unless it has one; no other topic's callbacks change. */
  ghost predicate Adds(
    s: Client, s': Client, t: Topic, name: Path, path: Path, added: seq<Handler>, outcome: Outcome) {
    var first := added != [] && Handlers(s, t) == {};
    && s'.server == (if first && outcome == Sent then s.server[s.uid := Session(s, s.uid) + {path}] else s.server)
    && s'.routes == (if added == [] || name in s.routes then s.routes else s.routes[name := RouteOf(t)])
    && WithCallbacks(s, s', t, if first && outcome == Refused then {} else SetOf(added))
  }

  /** The topic has more callbacks, and no other topic has changed. */
  ghost predicate WithCallbacks(s: Client, s': Client, t: Topic, more: set<Handler>) {
    match t
    case Block => s'.stores == s.stores && s'.block == s.block + more
    case OfAddress(c, a) =>
      && s'.block == s.block
      && s'.stores == if more == {} then s.stores else s.stores[c := Entries(s, c)[a := HandlersAt(Entries(s, c), a) + more]]
  }

  ghost predicate AddsNamed(s: Client, s': Client, t: Topic, added: seq<Handler>, outcome: Outcome) {
    forall name, path :: Wire(t, name, path) ==> Adds(s, s', t, name, path, added, outcome)
  }

  lemma AddsOnTheWire(s: Client, t: Topic, added: seq<Handler>, outcome: Outcome)
    ensures AddsNamed(s, AfterAdd(s, t, added, outcome), t, added, outcome)
  {
    hide Wire, Adds, AfterAdd;
    forall name, path | Wire(t, name, path) ensures Adds(s, AfterAdd(s, t, added, outcome), t, name, path, added, outcome) {
      AddOnTheWire(s, t, name, path, added, outcome);
    }
  }

  lemma AddOnTheWire(s: Client, t: Topic, name: Path, path: Path, added: seq<Handler>, outcome: Outcome)
    requires Wire(t, name, path)
    ensures Adds(s, AfterAdd(s, t, added, outcome), t, name, path, added, outcome)
  {
    NamesOnTheWire(t, name, path);
    if added != [] { SetOfMember(added); }
    hide PathOf, NameOf, RouteOf, SetOf, Wire;
    AnnouncedShape(s, t, outcome);
  }

  /** What a delivery leaves of the topic's callbacks; every other store stays as it was, and
      the server gives up the topic's path exactly when the topic has lost its last callback
      and the unsubscription is sent. */
  ghost predicate Delivers(
    s: Client, s': Client, t: Topic, path: Path, verdict: Handler -> bool, outcome: Outcome) {
    && s'.routes == s.routes
    && s'.server == (if Empties(s, t, verdict) && outcome == Sent
                     then s.server[s.uid := Session(s, s.uid) - {path}] else s.server)
    && match t
       case Block => s'.stores == s.stores && s'.block == Survivors(s.block, verdict)
       case OfAddress(c, a) =>
         && s'.block == s.block
         && var before := HandlersAt(Entries(s, c), a);
            s'.stores == if before == {} then s.stores else s.stores[c := Entries(s, c)[a := Survivors(before, verdict)]]
  }

  ghost predicate DeliversNamed(
    s: Client, s': Client, name: Path, address: Address, verdict: Handler -> bool, outcome: Outcome) {
    forall t: Topic, path :: Carries(t, name, address, path) ==> Delivers(s, s', t, path, verdict, outcome)
  }

  /** A message under the name of the topic's channel, for the topic's address. */
  ghost predicate Carries(t: Topic, name: Path, address: Address, path: Path) {
    Wire(t, name, path) && (t.OfAddress? ==> t.address == address)
  }

  lemma DeliveriesOnTheWire(s: Client, name: Path, address: Address, verdict: Handler -> bool, outcome: Outcome)
    requires name in s.routes
    ensures Invariant(s) ==> DeliversNamed(s, AfterMessage(s, name, address, verdict, outcome), name, address, verdict, outcome)
  {
    hide Invariant, Carries, Delivers, AfterMessage;
    if Invariant(s) {
      forall t: Topic, path | Carries(t, name, address, path)
        ensures Delivers(s, AfterMessage(s, name, address, verdict, outcome), t, path, verdict, outcome) {
        DeliveryOnTheWire(s, t, name, address, path, verdict, outcome);
      }
    }
  }

  lemma DeliveryOnTheWire(
    s: Client, t: Topic, name: Path, address: Address, path: Path, verdict: Handler -> bool, outcome: Outcome)
    requires Invariant(s) && name in s.routes && Carries(t, name, address, path)
    ensures Delivers(s, AfterMessage(s, name, address, verdict, outcome), t, path, verdict, outcome)
  {
    NamesOnTheWire(t, name, path);
    RouteFinds(s, name, address);
    var u := TopicOf(s.routes[name], address);
    NamesDistinct(t, u);
    assert u == t;
    assert s.uid == s.routerUid;
    SurvivorsOfNone(verdict);
    hide PathOf, NameOf, RouteOf, Invariant, Survivors, Format, TopicOf, Wire;
  }

  /** A complete reconnect holds the paths of the topics listed, and no others. */
  ghost predicate Restores(s: Client, s': Client) {
    && s'.uid in s'.server
    && forall t: Topic, name, path :: Wire(t, name, path) ==> (path in s'.server[s'.uid] <==> Listed(s, t))
  }

  /** The path of every topic listed is sent. */
  ghost predicate AllSent(s: Client, network: Path -> Outcome) {
    forall t: Topic, name, path :: Wire(t, name, path) && Listed(s, t) ==> network(path) == Sent
  }

  lemma SentOnTheWire(s: Client, network: Path -> Outcome)
    ensures AllSent(s, network) <==> forall t :: Listed(s, t) ==> network(PathOf(t)) == Sent
  {
    AllNames();
    hide PathOf, NameOf, Listed, Wire;
    if AllSent(s, network) {
      forall t | Listed(s, t) ensures network(PathOf(t)) == Sent { assert Wire(t, NameOf(t), PathOf(t)); }
    }
  }

  lemma ReconnectOnTheWire(s: Client, uid: Uid, received: set<Path>)
    requires Enabled(s, Reconnect(Some(uid), received, true))
    ensures Restores(s, AfterReconnect(s, Some(uid), received, true))
  {
    var s' := AfterReconnect(s, Some(uid), received, true);
    forall t: Topic, name, path | Wire(t, name, path) ensures path in s'.server[s'.uid] <==> Listed(s, t) {
      NamesOnTheWire(t, name, path);
      ReconnectSubscribes(s, uid, received, t);
      hide PathOf, Listed, Enabled, Wire;
    }
  }
}
