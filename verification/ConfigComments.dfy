/** What printing a comment and reading it back does to it.  Reading appends comment
    lines without a separator and turns each blank line into a newline, so a newline that
    ends a comment text is lost whenever more text follows. */
module ConfigComments {
  import opened ConfigText

  /** A comment is printed with a newline after it unless it is blank. */
  function CommentText(comment: text): text {
    if Trim(comment) != [] then comment + "\n" else comment
  }

  /** The comment accumulated over the lines that hold it. */
  function Gather(lines: seq<text>): text {
    if lines == [] then []
    else (if Trim(lines[0]) == [] then "\n" else Trim(lines[0])) + Gather(lines[1..])
  }

  /** Between newlines a comment holds texts that start with a marker and have no blank at
      either end. */
  predicate CommentOk(c: text) {
    forall i :: 0 <= i < |c| && c[i] != '\n' ==>
      && (StartsText(c, i) ==> c[i] == '#' || c[i] == ';')
      && (EndsText(c, i) ==> !Blank(c[i]))
  }

  predicate StartsText(c: text, i: nat)
    requires i < |c|
  {
    i == 0 || c[i - 1] == '\n'
  }

  predicate EndsText(c: text, i: nat)
    requires i < |c|
  {
    i == |c| - 1 || c[i + 1] == '\n'
  }

  predicate HasText(c: text) { exists i :: 0 <= i < |c| && c[i] != '\n' }

  // ---------------------------------------------------------------------------
  // The characterisation
  // ---------------------------------------------------------------------------

  /** Drops each newline that directly follows text and is itself followed by text;
      `prev` says whether text directly precedes `c`. */
  function Drop(c: text, prev: bool): text {
    if c == [] then []
    else if c[0] == '\n' && prev && HasText(c) then Drop(c[1..], false)
    else [c[0]] + Drop(c[1..], c[0] != '\n')
  }

  /** A comment after one round of printing and reading. */
  function Squeeze(c: text): text { Drop(c, false) }

  /** Newlines with text somewhere before and somewhere after them. */
  function InnerNewlines(c: text, seen: bool): nat {
    if c == [] then 0
    else (if c[0] == '\n' && seen && HasText(c) then 1 else 0) + InnerNewlines(c[1..], seen || c[0] != '\n')
  }

  /** Runs of newlines between two texts. */
  function InnerRuns(c: text, prev: bool): nat {
    if c == [] then 0
    else (if c[0] == '\n' && prev && HasText(c) then 1 else 0) + InnerRuns(c[1..], c[0] != '\n')
  }

  lemma HasTextTail(c: text)
    requires c != []
    ensures HasText(c) <==> c[0] != '\n' || HasText(c[1..])
  {
    if HasText(c[1..]) {
      var i :| 0 <= i < |c[1..]| && c[1..][i] != '\n';
      assert c[i + 1] != '\n';
    }
    if HasText(c) && c[0] == '\n' {
      var i :| 0 <= i < |c| && c[i] != '\n';
      assert c[1..][i - 1] != '\n';
    }
  }

  lemma {:induction false} HasTextDrop(c: text, prev: bool)
    ensures HasText(Drop(c, prev)) <==> HasText(c)
  {
    if c != [] {
      HasTextTail(c);
      if c[0] == '\n' && prev && HasText(c) {
        HasTextDrop(c[1..], false);
      } else {
        HasTextDrop(c[1..], c[0] != '\n');
        HasTextTail(Drop(c, prev));
      }
    }
  }

  /** One newline is dropped from each run between two texts. */
  lemma {:induction false} DropCounts(c: text, prev: bool, seen: bool)
    requires prev ==> seen
    ensures InnerNewlines(Drop(c, prev), seen) == InnerNewlines(c, seen) - InnerRuns(c, prev)
  {
    if c != [] {
      HasTextTail(c);
      if c[0] == '\n' && prev && HasText(c) {
        DropCounts(c[1..], false, seen);
      } else {
        DropCounts(c[1..], c[0] != '\n', seen || c[0] != '\n');
        HasTextDrop(c, prev);
      }
    }
  }

  /** While there is a newline between texts there is a run of them, unless it has already
      begun. */
  lemma {:induction false} RunsRemain(c: text, prev: bool)
    ensures InnerNewlines(c, prev) > 0 ==> InnerRuns(c, prev) > 0
  {
    if c != [] {
      HasTextTail(c);
      if c[0] == '\n' && !prev {
        RunsRemain(c[1..], false);
      } else if c[0] == '\n' {
        if !HasText(c) { NoTextNoNewlines(c, true); }
      } else {
        RunsRemain(c[1..], true);
      }
    }
  }

  lemma {:induction false} NoTextNoNewlines(c: text, seen: bool)
    requires !HasText(c)
    ensures InnerNewlines(c, seen) == 0
  {
    if c != [] {
      HasTextTail(c);
      NoTextNoNewlines(c[1..], seen || c[0] != '\n');
    }
  }

  /** Nothing is dropped exactly when no newline lies between texts. */
  lemma {:induction false} DropNothing(c: text, prev: bool)
    ensures Drop(c, prev) == c <==> InnerRuns(c, prev) == 0
  {
    DropLength(c, prev);
    if InnerRuns(c, prev) == 0 && c != [] {
      DropNothing(c[1..], c[0] != '\n');
    }
  }

  lemma {:induction false} DropLength(c: text, prev: bool)
    ensures |Drop(c, prev)| == |c| - InnerRuns(c, prev)
  {
    if c != [] {
      if c[0] == '\n' && prev && HasText(c) {
        DropLength(c[1..], false);
      } else {
        DropLength(c[1..], c[0] != '\n');
      }
    }
  }

  /** One round strictly reduces the newlines between texts, by one per run, until there
      are none, and changes nothing from then on. */
  lemma SqueezeProgress(c: text)
    ensures InnerNewlines(Squeeze(c), false) == InnerNewlines(c, false) - InnerRuns(c, false)
    ensures InnerNewlines(c, false) > 0 ==> InnerRuns(c, false) > 0
    ensures Squeeze(c) == c <==> InnerNewlines(c, false) == 0
  {
    DropCounts(c, false, false);
    RunsRemain(c, false);
    DropNothing(c, false);
  }

  function Newlines(n: nat): (r: text)
    ensures |r| == n && forall i :: 0 <= i < n ==> r[i] == '\n'
  {
    seq(n, _ => '\n')
  }

  /** Text free of newlines is kept. */
  lemma {:induction false} DropKeepsText(t: text, rest: text, prev: bool)
    requires '\n' !in t
    ensures Drop(t + rest, prev) == t + Drop(rest, prev || t != [])
  {
    if t == [] {
      assert t + rest == rest;
    } else {
      assert t[0] in t && (t + rest)[1..] == t[1..] + rest;
      DropKeepsText(t[1..], rest, true);
    }
  }

  lemma {:induction false} DropKeepsNewlines(n: nat, rest: text)
    ensures Drop(Newlines(n) + rest, false) == Newlines(n) + Drop(rest, false)
  {
    if n == 0 {
      assert Newlines(0) + rest == rest;
    } else {
      assert Newlines(n) == ['\n'] + Newlines(n - 1);
      assert (Newlines(n) + rest)[1..] == Newlines(n - 1) + rest;
      DropKeepsNewlines(n - 1, rest);
    }
  }

  lemma {:induction false} DropKeepsAll(c: text, prev: bool)
    requires !HasText(c)
    ensures Drop(c, prev) == c
  {
    if c != [] {
      HasTextTail(c);
      DropKeepsAll(c[1..], c[0] != '\n');
    }
  }

  /** The shape of one round: the newlines before the first text stay, a run of newlines
      between a text and more text loses exactly one, and the newlines after the last text
      stay. */
  lemma SqueezeShape(lead: nat, t: text, run: nat, rest: text, trail: nat)
    requires t != [] && '\n' !in t && rest != [] && rest[0] != '\n'
    ensures Squeeze(Newlines(lead) + (t + (Newlines(run + 1) + rest)))
            == Newlines(lead) + (t + (Newlines(run) + Squeeze(rest)))
    ensures Squeeze(Newlines(lead) + (t + Newlines(trail))) == Newlines(lead) + (t + Newlines(trail))
  {
    var tail := Newlines(run + 1) + rest;
    DropKeepsNewlines(lead, t + tail);
    DropKeepsText(t, tail, false);
    assert tail[run + 1] != '\n';
    assert Newlines(run + 1) == ['\n'] + Newlines(run);
    assert tail[1..] == Newlines(run) + rest;
    DropKeepsNewlines(run, rest);
    DropKeepsNewlines(lead, t + Newlines(trail));
    DropKeepsText(t, Newlines(trail), false);
    DropKeepsAll(Newlines(trail), true);
  }

  // ---------------------------------------------------------------------------
  // Any number of rounds
  // ---------------------------------------------------------------------------

  function SqueezeTimes(c: text, n: nat): text
    decreases n
  {
    if n == 0 then c else SqueezeTimes(Squeeze(c), n - 1)
  }

  /** All newlines between texts removed at once. */
  function Strip(c: text, seen: bool): text {
    if c == [] then []
    else if c[0] == '\n' && seen && HasText(c) then Strip(c[1..], seen)
    else [c[0]] + Strip(c[1..], seen || c[0] != '\n')
  }

  lemma {:induction false} StripDrop(c: text, prev: bool, seen: bool)
    requires prev ==> seen
    ensures Strip(Drop(c, prev), seen) == Strip(c, seen)
  {
    if c != [] {
      HasTextTail(c);
      if c[0] == '\n' && prev && HasText(c) {
        StripDrop(c[1..], false, seen);
      } else {
        StripDrop(c[1..], c[0] != '\n', seen || c[0] != '\n');
        HasTextDrop(c, prev);
      }
    }
  }

  lemma {:induction false} StripNothing(c: text, seen: bool)
    requires InnerNewlines(c, seen) == 0
    ensures Strip(c, seen) == c
  {
    if c != [] { StripNothing(c[1..], seen || c[0] != '\n'); }
  }

  /** After as many rounds as there are newlines between texts all of them are gone, and
      every further round is the identity. */
  lemma {:induction false} RoundsConverge(c: text, n: nat)
    requires n >= InnerNewlines(c, false)
    ensures SqueezeTimes(c, n) == Strip(c, false)
    decreases n
  {
    SqueezeProgress(c);
    if n == 0 {
      StripNothing(c, false);
    } else {
      StripDrop(c, false, false);
      RoundsConverge(Squeeze(c), n - 1);
    }
  }

  // ---------------------------------------------------------------------------
  // Printing and reading realise the characterisation
  // ---------------------------------------------------------------------------

  lemma {:induction false} GatherBlankLines(c: text)
    requires !HasText(c)
    ensures Gather(Lines(c)) == c && Gather(Lines(c + "\n")) == c + "\n"
    ensures forall l :: l in Lines(c) ==> l == []
  {
    if c == [] {
      LinesOne([]);
      assert c + "\n" == [] + "\n" && Gather([[]]) == "\n" + Gather([]);
    } else {
      HasTextTail(c);
      GatherBlankLines(c[1..]);
      assert c == [] + "\n" + c[1..];
      assert c + "\n" == [] + "\n" + (c[1..] + "\n");
      LinesCons([], c[1..]);
      LinesCons([], c[1..] + "\n");
    }
  }

  lemma CommentFirst(c: text, t: text, rest: text)
    requires CommentOk(c) && '\n' !in t
    requires c == t + "\n" + rest || (c == t && rest == [])
    ensures Trimmed(t) && CommentOk(rest)
    ensures t != [] ==> t[0] == '#' || t[0] == ';'
  {
    if t != [] {
      assert c[0] == t[0] && c[|t| - 1] == t[|t| - 1];
      assert t[0] in t && t[|t| - 1] in t;
      assert EndsText(c, |t| - 1);
    }
    if c == t + "\n" + rest {
      var k := |t| + 1;
      forall i | 0 <= i < |rest| && rest[i] != '\n'
        ensures StartsText(rest, i) ==> rest[i] == '#' || rest[i] == ';'
        ensures EndsText(rest, i) ==> !Blank(rest[i])
      {
        assert c[k + i] == rest[i] && c[k + i - 1] == (if i == 0 then '\n' else rest[i - 1]);
        if i + 1 < |rest| { assert c[k + i + 1] == rest[i + 1]; }
      }
    }
  }

  lemma GatherCons(t: text, rest: text)
    requires Trimmed(t) && '\n' !in t
    ensures Gather(Lines(t + "\n" + rest)) == (if t == [] then "\n" else t) + Gather(Lines(rest))
  {
    TrimNone(t);
    LinesCons(t, rest);
  }

  lemma SqueezeCons(t: text, rest: text)
    requires '\n' !in t
    ensures Squeeze(t + "\n" + rest) == if t != [] && HasText(rest) then t + Squeeze(rest) else t + "\n" + Squeeze(rest)
  {
    var tail := ['\n'] + rest;
    assert t + "\n" + rest == t + tail;
    DropKeepsText(t, tail, false);
    assert tail[1..] == rest;
    HasTextTail(tail);
  }

  lemma GatherOneText(t: text)
    requires Trimmed(t) && '\n' !in t && t != []
    ensures Gather(Lines(t + "\n")) == Squeeze(t)
  {
    GatherCons(t, []);
    assert t + "\n" + [] == t + "\n" && t + [] == t;
    DropKeepsText(t, [], false);
  }

  lemma GatherLastText(t: text, rest: text)
    requires Trimmed(t) && '\n' !in t && t != [] && !HasText(rest)
    ensures Gather(Lines(t + "\n" + (rest + "\n"))) == Squeeze(t + "\n" + rest)
  {
    hide Lines, Gather, HasText, Trimmed, Squeeze;
    GatherCons(t, rest + "\n");
    SqueezeCons(t, rest);
    GatherBlankLines(rest);
    SqueezeBlank(rest);
    BlankIsNewlines(t, rest);
  }

  lemma SqueezeBlank(rest: text)
    requires !HasText(rest)
    ensures Squeeze(rest) == rest
  {
    DropKeepsAll(rest, false);
  }

  lemma BlankIsNewlines(t: text, rest: text)
    requires !HasText(rest)
    ensures t + (rest + "\n") == t + "\n" + rest
  {
    assert forall i :: 0 <= i < |rest| ==> rest[i] == '\n';
  }

  lemma {:induction false} GatherText(c: text)
    requires CommentOk(c) && HasText(c)
    ensures Gather(Lines(c + "\n")) == Squeeze(c)
    decreases |c|
  {
    hide Lines, Gather, HasText, CommentOk, Trimmed, Squeeze;
    var i := Index(c, '\n');
    if i == -1 {
      CommentFirst(c, c, []);
      TextIsSome(c);
      GatherOneText(c);
    } else {
      var t, rest := c[..i], c[i + 1..];
      assert c == t + "\n" + rest;
      CommentFirst(c, t, rest);
      Regroup(t, "\n", rest, "\n");
      if HasText(rest) {
        GatherCons(t, rest + "\n");
        SqueezeCons(t, rest);
        GatherText(rest);
      } else {
        TextNotBlank(c, t, rest);
        GatherLastText(t, rest);
      }
    }
  }

  lemma TextIsSome(c: text)
    requires HasText(c)
    ensures c != []
  {
  }

  lemma TextNotBlank(c: text, t: text, rest: text)
    requires c == t + "\n" + rest && HasText(c) && !HasText(rest)
    ensures t != []
  {
    if t == [] {
      assert c[1..] == rest;
      HasTextTail(c);
    }
  }

  lemma BlankComment(c: text)
    requires CommentOk(c)
    ensures Trim(c) == [] <==> !HasText(c)
  {
    TrimAllBlank(c);
    if HasText(c) {
      var i :| 0 <= i < |c| && c[i] != '\n';
      TextStart(c, i);
    }
  }

  lemma {:induction false} TextStart(c: text, i: nat)
    requires CommentOk(c) && i < |c| && c[i] != '\n'
    ensures exists x :: x in c && !Blank(x)
  {
    if StartsText(c, i) {
      assert c[i] in c && !Blank(c[i]);
    } else {
      TextStart(c, i - 1);
    }
  }

  /** For every comment a parse can produce, reading the printed comment gives exactly the
      squeezed one. */
  lemma PrintedCommentReadsBack(c: text)
    requires CommentOk(c)
    ensures Gather(Lines(CommentText(c))) == Squeeze(c)
  {
    BlankComment(c);
    if HasText(c) {
      GatherText(c);
    } else {
      GatherBlankLines(c);
      DropKeepsAll(c, false);
    }
  }

  /** A line that a reader takes as blank or as comment. */
  predicate CommentLine(l: text) {
    Trim(l) == [] || Trim(l)[0] == '#' || Trim(l)[0] == ';'
  }

  lemma {:induction false} CommentLines(c: text)
    requires CommentOk(c)
    ensures forall l :: l in Lines(c) ==> CommentLine(l)
    ensures forall l :: l in Lines(c + "\n") ==> CommentLine(l)
    decreases |c|
  {
    var i := Index(c, '\n');
    if i == -1 {
      CommentFirst(c, c, []);
      TrimNone(c);
      LinesOne(c);
      if c != [] { assert Lines(c) == [c]; }
    } else {
      var t, rest := c[..i], c[i + 1..];
      assert c == t + "\n" + rest;
      CommentFirst(c, t, rest);
      TrimNone(t);
      Regroup(t, "\n", rest, "\n");
      LinesCons(t, rest);
      LinesCons(t, rest + "\n");
      CommentLines(rest);
    }
  }

  /** A printed comment consists of whole lines, all blank or comment. */
  lemma PrintedCommentLines(c: text)
    requires CommentOk(c)
    ensures Whole(CommentText(c))
    ensures forall l :: l in Lines(CommentText(c)) ==> CommentLine(l)
  {
    CommentLines(c);
    BlankComment(c);
  }
}
