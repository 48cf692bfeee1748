/** Several deliveries to one address at a time, each with its own goroutines, over the one
    live set of handlers. */
module Overlaps {
  import opened Subscribers

  /** One delivery's own part of the state. */
  datatype Run = Run(threads: map<Handler, Thread>, looping: bool, calls: multiset<Handler>)

  datatype Overlap = Overlap(live: set<Handler>, runs: seq<Run>, failed: bool)

  type Verdicts = seq<Handler -> bool>

  /** What delivery `i` sees and changes. */
  function View(o: Overlap, i: nat): Delivery
    requires i < |o.runs|
  {
    Delivery(o.live, o.runs[i].threads, o.runs[i].looping, o.runs[i].calls, o.failed)
  }

  predicate AllowedAt(o: Overlap, i: nat, a: Action) { i < |o.runs| && Allowed(View(o, i), a) }

  function TakeAt(o: Overlap, i: nat, a: Action, verdicts: Verdicts): Overlap
    requires AllowedAt(o, i, a) && |verdicts| == |o.runs|
  {
    var d := Take(View(o, i), a, verdicts[i]);
    Overlap(d.live, o.runs[i := Run(d.threads, d.looping, d.calls)], d.failed)
  }

  function BeginAll(initial: set<Handler>, deliveries: nat): Overlap {
    Overlap(initial, seq(deliveries, _ => Run(map[], true, multiset{})), false)
  }

  datatype Step = Step(delivery: nat, action: Action)

  /** The state that a schedule of all the deliveries leads to. */
  ghost predicate Interleaves(o: Overlap, steps: seq<Step>, verdicts: Verdicts, end: Overlap)
    requires |verdicts| == |o.runs|
    decreases |steps|
  {
    if steps == [] then end == o
    else
      && AllowedAt(o, steps[0].delivery, steps[0].action)
      && Interleaves(TakeAt(o, steps[0].delivery, steps[0].action, verdicts), steps[1..], verdicts, end)
  }

  /** Delivery `i` has asked for `h` to be removed and has seen that through. */
  predicate Gone(o: Overlap, verdicts: Verdicts, i: nat, h: Handler)
    requires |verdicts| == |o.runs|
  {
    i < |o.runs| && h in o.runs[i].threads && o.runs[i].threads[h] == Finished && verdicts[i](h)
  }

  /** Between them the deliveries make every handler leave, and two make the same one leave. */
  ghost predicate CanFail(initial: set<Handler>, verdicts: Verdicts) {
    && (forall h :: h in initial ==> exists i: nat :: Leaves(verdicts, i, h))
    && exists h: Handler, i: nat, j: nat :: h in initial && Leaves(verdicts, i, h) && Leaves(verdicts, j, h) && i != j
  }

  predicate Leaves(verdicts: Verdicts, i: nat, h: Handler) { i < |verdicts| && verdicts[i](h) }

  /** What holds between any two steps of any interleaving. */
  ghost predicate OnTrack(initial: set<Handler>, o: Overlap, verdicts: Verdicts) {
    && |verdicts| == |o.runs|
    && (forall h :: LiveExactly(initial, o, verdicts, h))
    && (forall i, h :: 0 <= i < |o.runs| && h in o.runs[i].threads ==> ThreadOk(initial, o, verdicts, i, h))
    && (o.failed ==> CanFail(initial, verdicts))
  }

  ghost predicate LiveExactly(initial: set<Handler>, o: Overlap, verdicts: Verdicts, h: Handler)
    requires |verdicts| == |o.runs|
  {
    h in o.live <==> h in initial && forall i :: !Gone(o, verdicts, i, h)
  }

  predicate ThreadOk(initial: set<Handler>, o: Overlap, verdicts: Verdicts, i: nat, h: Handler)
    requires |verdicts| == |o.runs| && i < |o.runs| && h in o.runs[i].threads
  {
    h in initial && (o.runs[i].threads[h] == Removing ==> verdicts[i](h))
  }

  lemma GoneAfter(o: Overlap, i: nat, a: Action, verdicts: Verdicts, j: nat, h: Handler)
    requires AllowedAt(o, i, a) && |verdicts| == |o.runs|
    requires forall h :: h in o.runs[i].threads && o.runs[i].threads[h] == Removing ==> verdicts[i](h)
    ensures Gone(TakeAt(o, i, a, verdicts), verdicts, j, h) <==> Gone(o, verdicts, j, h) || (j == i && a == Remove(h))
  {
  }

  lemma RunsAfter(o: Overlap, i: nat, a: Action, verdicts: Verdicts, j: nat)
    requires AllowedAt(o, i, a) && |verdicts| == |o.runs| && j < |o.runs|
    ensures var o' := TakeAt(o, i, a, verdicts);
            && |o'.runs| == |o.runs|
            && (j != i ==> o'.runs[j] == o.runs[j])
            && (forall h :: h in o'.runs[i].threads ==> h in o.runs[i].threads || (a == Spawn(h) && h in o.live))
            && (forall h :: h in o'.runs[i].threads && o'.runs[i].threads[h] == Removing ==>
                  verdicts[i](h) || (h in o.runs[i].threads && o.runs[i].threads[h] == Removing))
  {
  }

  /** A removal fails only once everybody has left, one of them for the second time. */
  lemma FailureNeeds(initial: set<Handler>, o: Overlap, i: nat, h: Handler, verdicts: Verdicts)
    requires OnTrack(initial, o, verdicts) && AllowedAt(o, i, Remove(h)) && o.live == {}
    ensures CanFail(initial, verdicts)
  {
    forall g | g in initial ensures exists j :: Leaves(verdicts, j, g) {
      assert LiveExactly(initial, o, verdicts, g);
      var j :| Gone(o, verdicts, j, g);
      assert Leaves(verdicts, j, g);
    }
    assert ThreadOk(initial, o, verdicts, i, h);
    assert LiveExactly(initial, o, verdicts, h);
    var j :| Gone(o, verdicts, j, h);
    assert Leaves(verdicts, i, h) && Leaves(verdicts, j, h) && i != j;
  }

  lemma LiveAfter(initial: set<Handler>, o: Overlap, i: nat, a: Action, verdicts: Verdicts, h: Handler)
    requires OnTrack(initial, o, verdicts) && AllowedAt(o, i, a)
    ensures LiveExactly(initial, TakeAt(o, i, a, verdicts), verdicts, h)
  {
    var o' := TakeAt(o, i, a, verdicts);
    assert LiveExactly(initial, o, verdicts, h);
    assert h in o'.live <==> h in o.live && a != Remove(h);
    forall j: nat ensures Gone(o', verdicts, j, h) <==> Gone(o, verdicts, j, h) || (j == i && a == Remove(h)) {
      RemovingAsked(initial, o, i, verdicts);
      GoneAfter(o, i, a, verdicts, j, h);
    }
    hide Gone, CanFail, TakeAt, AllowedAt, OnTrack;
    if a == Remove(h) { assert Gone(o', verdicts, i, h); }
  }

  lemma RemovingAsked(initial: set<Handler>, o: Overlap, i: nat, verdicts: Verdicts)
    requires OnTrack(initial, o, verdicts) && i < |o.runs|
    ensures forall h :: h in o.runs[i].threads && o.runs[i].threads[h] == Removing ==> verdicts[i](h)
  {
    hide CanFail, LiveExactly;
    forall h | h in o.runs[i].threads && o.runs[i].threads[h] == Removing ensures verdicts[i](h) {
      assert ThreadOk(initial, o, verdicts, i, h);
    }
  }

  lemma ThreadAfter(initial: set<Handler>, o: Overlap, i: nat, a: Action, verdicts: Verdicts, j: nat, h: Handler)
    requires OnTrack(initial, o, verdicts) && AllowedAt(o, i, a) && j < |o.runs|
    requires h in TakeAt(o, i, a, verdicts).runs[j].threads
    ensures ThreadOk(initial, TakeAt(o, i, a, verdicts), verdicts, j, h)
  {
    RunsAfter(o, i, a, verdicts, j);
    if h in o.runs[j].threads { assert ThreadOk(initial, o, verdicts, j, h); }
    assert LiveExactly(initial, o, verdicts, h);
    hide TakeAt, AllowedAt, CanFail, Gone, OnTrack;
  }

  lemma OnTrackStep(initial: set<Handler>, o: Overlap, i: nat, a: Action, verdicts: Verdicts)
    requires OnTrack(initial, o, verdicts) && AllowedAt(o, i, a)
    ensures OnTrack(initial, TakeAt(o, i, a, verdicts), verdicts)
  {
    var o' := TakeAt(o, i, a, verdicts);
    if a.Remove? && o.live == {} { FailureNeeds(initial, o, i, a.h, verdicts); }
    assert o'.failed ==> CanFail(initial, verdicts);
    assert |o'.runs| == |o.runs|;
    hide TakeAt, AllowedAt, CanFail, LiveExactly, ThreadOk;
    forall h ensures LiveExactly(initial, o', verdicts, h) {
      LiveAfter(initial, o, i, a, verdicts, h);
    }
    forall j, h | 0 <= j < |o.runs| && h in o'.runs[j].threads ensures ThreadOk(initial, o', verdicts, j, h) {
      ThreadAfter(initial, o, i, a, verdicts, j, h);
    }
  }

  lemma {:induction false} Overlapped(
    initial: set<Handler>, o: Overlap, steps: seq<Step>, verdicts: Verdicts, end: Overlap)
    requires OnTrack(initial, o, verdicts) && Interleaves(o, steps, verdicts, end)
    ensures OnTrack(initial, end, verdicts)
    decreases |steps|
  {
    if steps != [] {
      OnTrackStep(initial, o, steps[0].delivery, steps[0].action, verdicts);
      hide OnTrack, AllowedAt, TakeAt;
      var o' := TakeAt(o, steps[0].delivery, steps[0].action, verdicts);
      assert |o'.runs| == |verdicts| by { OnTrackCount(initial, o', verdicts); }
      Overlapped(initial, o', steps[1..], verdicts, end);
    }
  }

  lemma OnTrackCount(initial: set<Handler>, o: Overlap, verdicts: Verdicts)
    requires OnTrack(initial, o, verdicts)
    ensures |verdicts| == |o.runs|
  {
  }

  // ---------------------------------------------------------------------------
  // A schedule that fails
  // ---------------------------------------------------------------------------

  /** Each handler of `left` has its goroutine of the delivery `who` names about to remove it. */
  ghost predicate Poised(o: Overlap, who: Handler -> nat, left: set<Handler>) {
    forall h :: h in left ==>
      && who(h) < |o.runs| && h in o.runs[who(h)].threads && o.runs[who(h)].threads[h] == Removing
  }

  ghost predicate About(o: Overlap, j: nat, h: Handler) {
    j < |o.runs| && h in o.runs[j].threads && o.runs[j].threads[h] == Removing
  }

  /** All removals, and then the second one of `again`. */
  lemma {:induction false} RemoveAll(
    o: Overlap, who: Handler -> nat, verdicts: Verdicts, j: nat, again: Handler) returns (steps: seq<Step>, end: Overlap)
    requires |verdicts| == |o.runs| && Poised(o, who, o.live) && About(o, j, again)
    requires again in o.live ==> who(again) != j
    ensures Interleaves(o, steps, verdicts, end) && end.failed
    decreases |o.live|
  {
    if o.live == {} {
      end := TakeAt(o, j, Remove(again), verdicts);
      steps := [Step(j, Remove(again))];
      assert Interleaves(end, steps[1..], verdicts, end);
    } else {
      var h :| h in o.live;
      var o' := TakeAt(o, who(h), Remove(h), verdicts);
      assert o'.live == o.live - {h};
      PoisedAfter(o, who, verdicts, h);
      var rest;
      rest, end := RemoveAll(o', who, verdicts, j, again);
      steps := [Step(who(h), Remove(h))] + rest;
      assert steps[1..] == rest;
    }
  }

  lemma PoisedAfter(o: Overlap, who: Handler -> nat, verdicts: Verdicts, h: Handler)
    requires |verdicts| == |o.runs| && Poised(o, who, o.live) && h in o.live
    ensures AllowedAt(o, who(h), Remove(h))
    ensures var o' := TakeAt(o, who(h), Remove(h), verdicts);
            && |o'.runs| == |o.runs| && Poised(o', who, o'.live)
            && forall j, g :: About(o, j, g) && (g != h || j != who(h)) ==> About(o', j, g)
  {
  }

  /** Starts the goroutine of delivery `i` for `h` and lets it ask for the removal. */
  lemma Prepare(o: Overlap, i: nat, h: Handler, verdicts: Verdicts) returns (o1: Overlap, o2: Overlap)
    requires |verdicts| == |o.runs| && i < |o.runs| && verdicts[i](h)
    requires h in o.live && o.runs[i].looping && h !in o.runs[i].threads
    ensures AllowedAt(o, i, Spawn(h)) && o1 == TakeAt(o, i, Spawn(h), verdicts) && |o1.runs| == |o.runs|
    ensures AllowedAt(o1, i, Call(h)) && o2 == TakeAt(o1, i, Call(h), verdicts)
    ensures o2.live == o.live && |o2.runs| == |o.runs|
    ensures forall j :: 0 <= j < |o.runs| && j != i ==> o2.runs[j] == o.runs[j]
    ensures o2.runs[i].looping && o2.runs[i].threads == o.runs[i].threads[h := Removing]
  {
    o1 := TakeAt(o, i, Spawn(h), verdicts);
    o2 := TakeAt(o1, i, Call(h), verdicts);
  }

  /** No goroutine of `who` has been started for the handlers of `left`. */
  ghost predicate Unstarted(o: Overlap, who: Handler -> nat, left: set<Handler>, verdicts: Verdicts) {
    forall h :: h in left ==>
      && who(h) < |o.runs| && who(h) < |verdicts| && verdicts[who(h)](h) && h !in o.runs[who(h)].threads
  }

  lemma {:induction false} PrepareAll(
    o: Overlap, left: set<Handler>, who: Handler -> nat, verdicts: Verdicts, j: nat, again: Handler)
    returns (steps: seq<Step>, end: Overlap)
    requires |verdicts| == |o.runs| && (forall i :: 0 <= i < |o.runs| ==> o.runs[i].looping)
    requires left <= o.live && Unstarted(o, who, left, verdicts) && Poised(o, who, o.live - left)
    requires About(o, j, again) && who(again) != j
    ensures Interleaves(o, steps, verdicts, end) && end.failed
    decreases |left|
  {
    if left == {} {
      assert o.live - left == o.live;
      steps, end := RemoveAll(o, who, verdicts, j, again);
    } else {
      var h :| h in left;
      var o1, o2 := Prepare(o, who(h), h, verdicts);
      PreparedOne(o, o2, left, who, verdicts, h);
      var rest;
      rest, end := PrepareAll(o2, left - {h}, who, verdicts, j, again);
      steps := [Step(who(h), Spawn(h)), Step(who(h), Call(h))] + rest;
      TwoSteps(o, o1, o2, Step(who(h), Spawn(h)), Step(who(h), Call(h)), rest, verdicts, end);
    }
  }

  lemma PreparedOne(o: Overlap, o2: Overlap, left: set<Handler>, who: Handler -> nat, verdicts: Verdicts, h: Handler)
    requires |verdicts| == |o.runs| == |o2.runs| && h in left && left <= o.live && o2.live == o.live
    requires Unstarted(o, who, left, verdicts) && Poised(o, who, o.live - left)
    requires forall j :: 0 <= j < |o.runs| && j != who(h) ==> o2.runs[j] == o.runs[j]
    requires o2.runs[who(h)].threads == o.runs[who(h)].threads[h := Removing]
    ensures Unstarted(o2, who, left - {h}, verdicts) && Poised(o2, who, o2.live - (left - {h}))
    ensures forall j, g :: About(o, j, g) ==> About(o2, j, g)
  {
  }

  lemma TwoSteps(
    o: Overlap, o1: Overlap, o2: Overlap, a: Step, b: Step, rest: seq<Step>, verdicts: Verdicts, end: Overlap)
    requires |verdicts| == |o.runs| == |o1.runs| == |o2.runs|
    requires AllowedAt(o, a.delivery, a.action) && o1 == TakeAt(o, a.delivery, a.action, verdicts)
    requires AllowedAt(o1, b.delivery, b.action) && o2 == TakeAt(o1, b.delivery, b.action, verdicts)
    requires Interleaves(o2, rest, verdicts, end)
    ensures Interleaves(o, [a, b] + rest, verdicts, end)
  {
    var steps := [a, b] + rest;
    assert steps[1..] == [b] + rest && steps[1..][1..] == rest;
    assert Interleaves(o1, steps[1..], verdicts, end);
  }

  /** A delivery to remove each handler, and one more to remove one of them again. */
  lemma Removers(initial: set<Handler>, verdicts: Verdicts) returns (who: Handler -> nat, again: Handler, j: nat)
    requires CanFail(initial, verdicts)
    ensures forall h :: h in initial ==> Leaves(verdicts, who(h), h)
    ensures again in initial && Leaves(verdicts, j, again) && who(again) != j
  {
    var twice: Handler, i: nat, i': nat :|
      twice in initial && Leaves(verdicts, i, twice) && Leaves(verdicts, i', twice) && i != i';
    who := h => if h == twice then i else Leaver(verdicts, h);
    again, j := twice, i';
  }

  lemma SomeScheduleFails(initial: set<Handler>, verdicts: Verdicts) returns (steps: seq<Step>, end: Overlap)
    requires CanFail(initial, verdicts)
    ensures Interleaves(BeginAll(initial, |verdicts|), steps, verdicts, end) && end.failed
  {
    var who, again, j := Removers(initial, verdicts);
    hide CanFail;
    var o := BeginAll(initial, |verdicts|);
    assert forall k :: 0 <= k < |o.runs| ==> o.runs[k] == Run(map[], true, multiset{});
    var o1, o2 := Prepare(o, j, again, verdicts);
    hide AllowedAt, TakeAt, Interleaves, Leaver, BeginAll;
    FirstPrepared(initial, o, o2, who, verdicts, j, again);
    assert About(o2, j, again);
    hide Unstarted, Poised, About, Leaves;
    assert o2.live - initial == {};
    var rest;
    rest, end := PrepareAll(o2, initial, who, verdicts, j, again);
    steps := [Step(j, Spawn(again)), Step(j, Call(again))] + rest;
    TwoSteps(o, o1, o2, Step(j, Spawn(again)), Step(j, Call(again)), rest, verdicts, end);
  }

  lemma FirstPrepared(
    initial: set<Handler>, o: Overlap, o2: Overlap, who: Handler -> nat, verdicts: Verdicts, j: nat, again: Handler)
    requires |verdicts| == |o.runs| == |o2.runs| && j < |o.runs| && who(again) != j && o2.live == initial
    requires forall h :: h in initial ==> Leaves(verdicts, who(h), h)
    requires forall k :: 0 <= k < |o.runs| ==> o.runs[k] == Run(map[], true, multiset{})
    requires forall k :: 0 <= k < |o.runs| && k != j ==> o2.runs[k] == o.runs[k]
    requires o2.runs[j].looping && o2.runs[j].threads == o.runs[j].threads[again := Removing]
    ensures forall k :: 0 <= k < |o2.runs| ==> o2.runs[k].looping
    ensures Unstarted(o2, who, initial, verdicts) && Poised(o2, who, o2.live - initial)
  {
    forall k | 0 <= k < |o2.runs| ensures o2.runs[k].looping {
      if k != j { assert o2.runs[k] == o.runs[k]; }
    }
    forall h | h in initial ensures who(h) < |o2.runs| && h !in o2.runs[who(h)].threads {
      assert Leaves(verdicts, who(h), h);
      if who(h) != j { assert o2.runs[who(h)] == o.runs[who(h)]; }
    }
  }

  /** A delivery that makes `h` leave, if there is one. */
  ghost function Leaver(verdicts: Verdicts, h: Handler): (i: nat)
    ensures (exists k: nat :: Leaves(verdicts, k, h)) ==> Leaves(verdicts, i, h)
  {
    if exists k: nat :: Leaves(verdicts, k, h) then
      var i: nat :| Leaves(verdicts, i, h);
      i
    else 0
  }

  /** Overlapping deliveries to one address can end in a removal that finds no handlers, and
      so in a panic, if and only if between them they make every handler leave and two of
      them make the same handler leave. */
  lemma RemovalFailsExactly(initial: set<Handler>, verdicts: Verdicts)
    ensures (exists steps, end :: Interleaves(BeginAll(initial, |verdicts|), steps, verdicts, end) && end.failed)
            <==> CanFail(initial, verdicts)
  {
    var o := BeginAll(initial, |verdicts|);
    if steps, end :| Interleaves(o, steps, verdicts, end) && end.failed {
      Overlapped(initial, o, steps, verdicts, end);
    }
    if CanFail(initial, verdicts) {
      var steps, end := SomeScheduleFails(initial, verdicts);
    }
  }

  /** At every moment of every interleaving the handlers that are left are those that no
      delivery has removed. */
  lemma LiveIsWhatIsLeft(initial: set<Handler>, verdicts: Verdicts, steps: seq<Step>, end: Overlap, h: Handler)
    requires Interleaves(BeginAll(initial, |verdicts|), steps, verdicts, end)
    ensures |end.runs| == |verdicts|
    ensures h in end.live <==> h in initial && forall i :: !Gone(end, verdicts, i, h)
  {
    Overlapped(initial, BeginAll(initial, |verdicts|), steps, verdicts, end);
    assert LiveExactly(initial, end, verdicts, h);
  }
}
