/** The stores of callback handlers, and one delivery of a message to all of them. */
module Subscribers {

  type Address = string

  /** A handler is known by its identity. */
  type Handler = nat

  function SetOf(handlers: seq<Handler>): set<Handler> { set h | h in handlers }

  function HandlersAt(subscribers: map<Address, set<Handler>>, address: Address): set<Handler> {
    if address in subscribers then subscribers[address] else {}
  }

  /** Handlers by address.  Removal keeps an emptied entry. */
  class AddressStore {
    var subscribers: map<Address, set<Handler>>

    constructor ()
      ensures subscribers == map[]
    {
      subscribers := map[];
    }

    method AddHandlers(address: Address, handlers: seq<Handler>)
      modifies this
      ensures subscribers == if handlers == [] then old(subscribers)
                             else old(subscribers)[address := HandlersAt(old(subscribers), address) + SetOf(handlers)]
    {
      if handlers == [] { return; }
      if address !in subscribers {
        subscribers := subscribers[address := {}];
      }
      ghost var initial := subscribers[address];
      assert initial + SetOf(handlers[..0]) == initial;
      var i := 0;
      while i < |handlers|
        invariant 0 <= i <= |handlers|
        invariant subscribers == old(subscribers)[address := initial + SetOf(handlers[..i])]
      {
        assert initial + SetOf(handlers[..i + 1]) == initial + SetOf(handlers[..i]) + {handlers[i]};
        subscribers := subscribers[address := subscribers[address] + {handlers[i]}];
        i := i + 1;
      }
      assert handlers[..i] == handlers;
    }

    /** Fails, removing nothing, when the address has no handlers. */
    method RemoveHandlers(address: Address, handlers: seq<Handler>) returns (emptied: bool, found: bool)
      modifies this
      ensures found <==> handlers == [] || HandlersAt(old(subscribers), address) != {}
      ensures subscribers == if found && handlers != []
                             then old(subscribers)[address := HandlersAt(old(subscribers), address) - SetOf(handlers)]
                             else old(subscribers)
      ensures emptied <==> found && handlers != [] && HandlersAt(subscribers, address) == {}
    {
      if handlers == [] { return false, true; }
      if address !in subscribers || subscribers[address] == {} { return false, false; }
      ghost var initial := subscribers[address];
      assert initial - SetOf(handlers[..0]) == initial;
      var i := 0;
      while i < |handlers|
        invariant 0 <= i <= |handlers|
        invariant subscribers == old(subscribers)[address := initial - SetOf(handlers[..i])]
      {
        assert initial - SetOf(handlers[..i + 1]) == initial - SetOf(handlers[..i]) - {handlers[i]};
        subscribers := subscribers[address := subscribers[address] - {handlers[i]}];
        i := i + 1;
      }
      assert handlers[..i] == handlers;
      return subscribers[address] == {}, true;
    }

    method HasHandlers(address: Address) returns (has: bool)
      ensures has <==> HandlersAt(subscribers, address) != {}
    {
      has := address in subscribers && subscribers[address] != {};
    }

    method GetAddresses() returns (addresses: set<Address>)
      ensures addresses == subscribers.Keys
    {
      addresses := subscribers.Keys;
    }

    /** Delivers one message: every callback runs in its own goroutine, scheduled in any
        order with the loop that starts them; `verdict` says which callbacks ask to be
        removed.  Returns whether the subscription is still wanted. */
    method Handle(address: Address, verdict: Handler -> bool) returns (keep: bool, ghost calls: multiset<Handler>)
      modifies this
      ensures var initial := HandlersAt(old(subscribers), address);
              && calls == multiset(initial)
              && (initial == {} ==> keep && subscribers == old(subscribers))
              && (initial != {} ==>
                    && subscribers == old(subscribers)[address := Survivors(initial, verdict)]
                    && (keep <==> Survivors(initial, verdict) != {}))
    {
      hide OnCourse, Measure, Survivors;
      if address !in subscribers || subscribers[address] == {} { return true, multiset{}; }
      ghost var initial := subscribers[address];
      var threads: map<Handler, Thread> := map[];
      var looping := true;
      calls := multiset{};
      var failed := false;
      BeginHolds(initial, verdict);
      while looping || exists h :: h in threads && threads[h] != Finished
        invariant address in subscribers
        invariant subscribers == old(subscribers)[address := subscribers[address]]
        invariant OnCourse(initial, Delivery(subscribers[address], threads, looping, calls, failed), verdict)
        decreases Measure(initial, Delivery(subscribers[address], threads, looping, calls, failed))
      {
        var unstarted := subscribers[address] - threads.Keys;
        var running := set h | h in threads && threads[h] != Finished;
        ghost var before := Delivery(subscribers[address], threads, looping, calls, failed);
        if !looping {
          var h :| h in threads && threads[h] != Finished;
          assert h in running;
        }
        if
        case looping && unstarted != {} =>
          var h :| h in unstarted;
          threads := threads[h := Started];
          StepKeeps(initial, before, Spawn(h), verdict);
        case looping && unstarted == {} =>
          assert forall h :: h in subscribers[address] ==> h !in unstarted;
          assert Allowed(before, EndLoop);
          StepKeeps(initial, before, EndLoop, verdict);
          looping := false;
        case running != {} =>
          var h :| h in running;
          if threads[h] == Started {
            StepKeeps(initial, before, Call(h), verdict);
            calls := calls + multiset{h};
            threads := threads[h := if verdict(h) then Removing else Finished];
          } else {
            StepKeeps(initial, before, Remove(h), verdict);
            var _, found := RemoveHandlers(address, [h]);
            if !found { failed := true; }
            threads := threads[h := Finished];
            assert SetOf([h]) == {h};
          }
      }
      Delivered(initial, Delivery(subscribers[address], threads, looping, calls, failed), verdict);
      keep := HasHandlers(address);
    }
  }

  /** Handlers without an address, in a single set. */
  class BlockStore {
    var handlers: set<Handler>

    constructor ()
      ensures handlers == {}
    {
      handlers := {};
    }

    method AddHandlers(added: seq<Handler>)
      modifies this
      ensures handlers == old(handlers) + SetOf(added)
    {
      var i := 0;
      while i < |added|
        invariant 0 <= i <= |added|
        invariant handlers == old(handlers) + SetOf(added[..i])
      {
        assert SetOf(added[..i + 1]) == SetOf(added[..i]) + {added[i]};
        handlers := handlers + {added[i]};
        i := i + 1;
      }
      assert added[..i] == added;
    }

    /** Fails only when asked to remove nothing. */
    method RemoveHandlers(removed: seq<Handler>) returns (emptied: bool, found: bool)
      modifies this
      ensures found <==> removed != []
      ensures handlers == old(handlers) - SetOf(removed)
      ensures emptied <==> found && handlers == {}
    {
      if removed == [] { return false, false; }
      var i := 0;
      while i < |removed|
        invariant 0 <= i <= |removed|
        invariant handlers == old(handlers) - SetOf(removed[..i])
      {
        assert SetOf(removed[..i + 1]) == SetOf(removed[..i]) + {removed[i]};
        handlers := handlers - {removed[i]};
        i := i + 1;
      }
      assert removed[..i] == removed;
      return handlers == {}, true;
    }

    method HasHandlers() returns (has: bool)
      ensures has <==> handlers != {}
    {
      has := handlers != {};
    }

    /** As for an address, over the single set. */
    method Handle(verdict: Handler -> bool) returns (keep: bool, ghost calls: multiset<Handler>)
      modifies this
      ensures calls == multiset(old(handlers))
      ensures handlers == Survivors(old(handlers), verdict)
      ensures keep <==> old(handlers) == {} || handlers != {}
    {
      hide OnCourse, Measure;
      if handlers == {} { return true, multiset{}; }
      hide Survivors;
      ghost var initial := handlers;
      var threads: map<Handler, Thread> := map[];
      var looping := true;
      calls := multiset{};
      var failed := false;
      BeginHolds(initial, verdict);
      while looping || exists h :: h in threads && threads[h] != Finished
        invariant OnCourse(initial, Delivery(handlers, threads, looping, calls, failed), verdict)
        decreases Measure(initial, Delivery(handlers, threads, looping, calls, failed))
      {
        var unstarted := handlers - threads.Keys;
        var running := set h | h in threads && threads[h] != Finished;
        ghost var before := Delivery(handlers, threads, looping, calls, failed);
        if !looping {
          var h :| h in threads && threads[h] != Finished;
          assert h in running;
        }
        if
        case looping && unstarted != {} =>
          var h :| h in unstarted;
          threads := threads[h := Started];
          StepKeeps(initial, before, Spawn(h), verdict);
        case looping && unstarted == {} =>
          assert forall h :: h in handlers ==> h !in unstarted;
          assert Allowed(before, EndLoop);
          StepKeeps(initial, before, EndLoop, verdict);
          looping := false;
        case running != {} =>
          var h :| h in running;
          if threads[h] == Started {
            StepKeeps(initial, before, Call(h), verdict);
            calls := calls + multiset{h};
            threads := threads[h := if verdict(h) then Removing else Finished];
          } else {
            StepKeeps(initial, before, Remove(h), verdict);
            NeverFails(initial, Take(before, Remove(h), verdict), verdict);
            var _, found := RemoveHandlers([h]);
            if !found { failed := true; }
            threads := threads[h := Finished];
            assert SetOf([h]) == {h};
          }
      }
      Delivered(initial, Delivery(handlers, threads, looping, calls, failed), verdict);
      keep := HasHandlers();
    }
  }

  // ---------------------------------------------------------------------------
  // One delivery as a transition system
  // ---------------------------------------------------------------------------

  datatype Thread = Started | Removing | Finished

  /** The live handler set, the goroutines started for it, whether the starting loop still
      runs, the calls made, and whether some removal failed. */
  datatype Delivery = Delivery(
    live: set<Handler>, threads: map<Handler, Thread>, looping: bool, calls: multiset<Handler>, failed: bool)

  datatype Action = Spawn(h: Handler) | EndLoop | Call(h: Handler) | Remove(h: Handler)

  /** The loop visits each live handler once and ends when none is left unvisited; a
      goroutine calls its handler and then, if told to, removes it. */
  predicate Allowed(d: Delivery, a: Action) {
    match a
    case Spawn(h) => d.looping && h in d.live && h !in d.threads
    case EndLoop => d.looping && d.live <= d.threads.Keys
    case Call(h) => h in d.threads && d.threads[h] == Started
    case Remove(h) => h in d.threads && d.threads[h] == Removing
  }

  function Take(d: Delivery, a: Action, verdict: Handler -> bool): Delivery
    requires Allowed(d, a)
  {
    match a
    case Spawn(h) => d.(threads := d.threads[h := Started])
    case EndLoop => d.(looping := false)
    case Call(h) =>
      d.(calls := d.calls + multiset{h}, threads := d.threads[h := if verdict(h) then Removing else Finished])
    case Remove(h) =>
      // removing from an address without handlers is an error
      if d.live == {} then d.(failed := true, threads := d.threads[h := Finished])
      else d.(live := d.live - {h}, threads := d.threads[h := Finished])
  }

  function Begin(initial: set<Handler>): Delivery { Delivery(initial, map[], true, multiset{}, false) }

  predicate Done(d: Delivery) { !d.looping && forall h :: h in d.threads ==> d.threads[h] == Finished }

  function Survivors(initial: set<Handler>, verdict: Handler -> bool): set<Handler> {
    set h | h in initial && !verdict(h)
  }

  /** What holds between any two steps of any schedule. */
  ghost predicate OnCourse(initial: set<Handler>, d: Delivery, verdict: Handler -> bool) {
    && !d.failed
    && d.threads.Keys <= initial
    && (forall h :: h in d.live <==> h in initial && !(h in d.threads && d.threads[h] == Finished && verdict(h)))
    && (forall h :: d.calls[h] == if h in d.threads && d.threads[h] != Started then 1 else 0)
    && (forall h :: h in d.threads && d.threads[h] == Removing ==> verdict(h))
    && (!d.looping ==> initial <= d.threads.Keys)
  }

  /** Steps still to be taken: three for each unstarted handler, then fewer. */
  function Steps(t: Thread): nat {
    match t
    case Started => 2
    case Removing => 1
    case Finished => 0
  }

  ghost function Pending(left: set<Handler>, threads: map<Handler, Thread>): nat {
    if left == {} then 0
    else
      var h :| h in left;
      (if h in threads then Steps(threads[h]) else 3) + Pending(left - {h}, threads)
  }

  lemma {:induction false} PendingSplit(left: set<Handler>, threads: map<Handler, Thread>, h: Handler)
    requires h in left
    ensures Pending(left, threads) == (if h in threads then Steps(threads[h]) else 3) + Pending(left - {h}, threads)
    decreases |left|
  {
    var c :| c in left && Pending(left, threads)
                         == (if c in threads then Steps(threads[c]) else 3) + Pending(left - {c}, threads);
    if c != h {
      PendingSplit(left - {c}, threads, h);
      PendingSplit(left - {h}, threads, c);
      assert left - {c} - {h} == left - {h} - {c};
    }
  }

  lemma {:induction false} PendingSame(left: set<Handler>, threads: map<Handler, Thread>, threads': map<Handler, Thread>)
    requires forall h :: h in left ==> (h in threads <==> h in threads') && (h in threads ==> threads[h] == threads'[h])
    ensures Pending(left, threads) == Pending(left, threads')
    decreases |left|
  {
    if left != {} {
      var h :| h in left;
      PendingSplit(left, threads, h);
      PendingSplit(left, threads', h);
      PendingSame(left - {h}, threads, threads');
    }
  }

  ghost function Measure(initial: set<Handler>, d: Delivery): nat {
    Pending(initial, d.threads) + if d.looping then 1 else 0
  }

  lemma MeasureThread(initial: set<Handler>, threads: map<Handler, Thread>, h: Handler, t: Thread)
    requires h in initial && Steps(t) < if h in threads then Steps(threads[h]) else 3
    ensures Pending(initial, threads[h := t]) < Pending(initial, threads)
  {
    PendingSplit(initial, threads, h);
    PendingSplit(initial, threads[h := t], h);
    PendingSame(initial - {h}, threads, threads[h := t]);
  }

  lemma BeginHolds(initial: set<Handler>, verdict: Handler -> bool)
    ensures OnCourse(initial, Begin(initial), verdict)
  {}

  lemma NeverFails(initial: set<Handler>, d: Delivery, verdict: Handler -> bool)
    requires OnCourse(initial, d, verdict)
    ensures !d.failed
  {}

  /** Every step of every goroutine keeps the invariant and brings the end nearer; in
      particular no removal ever finds the address without handlers. */
  lemma StepKeeps(initial: set<Handler>, d: Delivery, a: Action, verdict: Handler -> bool)
    requires OnCourse(initial, d, verdict) && Allowed(d, a)
    ensures OnCourse(initial, Take(d, a, verdict), verdict)
    ensures Measure(initial, Take(d, a, verdict)) < Measure(initial, d)
  {
    match a
    case Spawn(h) => MeasureThread(initial, d.threads, h, Started);
    case EndLoop =>
      forall h | h in initial ensures h in d.threads {
        if h !in d.live { assert h in d.threads; }
      }
    case Call(h) => MeasureThread(initial, d.threads, h, if verdict(h) then Removing else Finished);
    case Remove(h) =>
      assert h in d.live;
      MeasureThread(initial, d.threads, h, Finished);
  }

  /** No schedule gets stuck: until the end some step is possible. */
  lemma SomeStepAllowed(initial: set<Handler>, d: Delivery, verdict: Handler -> bool) returns (a: Action)
    requires OnCourse(initial, d, verdict) && !Done(d)
    ensures Allowed(d, a)
  {
    if d.looping {
      if d.live <= d.threads.Keys {
        a := EndLoop;
      } else {
        var h :| h in d.live && h !in d.threads;
        a := Spawn(h);
      }
    } else {
      var h :| h in d.threads && d.threads[h] != Finished;
      a := if d.threads[h] == Started then Call(h) else Remove(h);
    }
  }

  lemma Delivered(initial: set<Handler>, d: Delivery, verdict: Handler -> bool)
    requires OnCourse(initial, d, verdict) && Done(d)
    ensures !d.failed && d.calls == multiset(initial) && d.live == Survivors(initial, verdict)
  {
    forall h ensures d.calls[h] == multiset(initial)[h] {
      if h in initial { assert h in d.threads; }
    }
  }

  /** The state reached by a schedule, if each of its actions is allowed in turn. */
  ghost predicate Schedules(d: Delivery, actions: seq<Action>, verdict: Handler -> bool, end: Delivery)
    decreases |actions|
  {
    if actions == [] then end == d
    else Allowed(d, actions[0]) && Schedules(Take(d, actions[0], verdict), actions[1..], verdict, end)
  }

  lemma {:induction false} ScheduleKeeps(
    initial: set<Handler>, d: Delivery, actions: seq<Action>, verdict: Handler -> bool, end: Delivery)
    requires OnCourse(initial, d, verdict) && Schedules(d, actions, verdict, end)
    ensures OnCourse(initial, end, verdict)
    ensures |actions| + Measure(initial, end) <= Measure(initial, d)
    decreases |actions|
  {
    hide OnCourse, Measure;
    if actions != [] {
      StepKeeps(initial, d, actions[0], verdict);
      ScheduleKeeps(initial, Take(d, actions[0], verdict), actions[1..], verdict, end);
    }
  }

  lemma {:induction false} PendingBound(left: set<Handler>)
    ensures Pending(left, map[]) == 3 * |left|
    decreases |left|
  {
    if left != {} {
      var h :| h in left;
      PendingSplit(left, map[], h);
      PendingBound(left - {h});
    }
  }

  /** For every schedule of the goroutines of one delivery: it never fails a removal, it has
      at most three steps per handler and one more, and once it is done every handler has
      been called exactly once and exactly those that did not ask to be removed are left. */
  lemma EverySchedule(initial: set<Handler>, actions: seq<Action>, verdict: Handler -> bool, end: Delivery)
    requires Schedules(Begin(initial), actions, verdict, end)
    ensures !end.failed
    ensures |actions| <= 3 * |initial| + 1
    ensures Done(end) ==> end.calls == multiset(initial) && end.live == Survivors(initial, verdict)
    ensures Done(end) ==> forall h :: h in end.live <==> h in initial && !verdict(h)
    ensures !Done(end) ==> exists a :: Allowed(end, a)
  {
    ScheduleKeeps(initial, Begin(initial), actions, verdict, end);
    PendingBound(initial);
    if Done(end) {
      Delivered(initial, end, verdict);
    } else {
      var a := SomeStepAllowed(initial, end, verdict);
    }
  }
}
