/** Text as the configuration reader sees it: trimming, searching and lines. */
module ConfigText {

  type text = seq<char>

  predicate Blank(c: char) {
    c == ' ' || c == '\t' || c == '\n' || c == '\r' || c == '\U{0B}' || c == '\U{0C}'
  }

  function TrimLeft(s: text): text {
    if s != [] && Blank(s[0]) then TrimLeft(s[1..]) else s
  }

  function TrimRight(s: text): text {
    if s != [] && Blank(s[|s| - 1]) then TrimRight(s[..|s| - 1]) else s
  }

  function Trim(s: text): text { TrimRight(TrimLeft(s)) }

  /** These six characters, and no others, are trimmed. */
  lemma TrimmedCharacters(c: char)
    ensures Trim([c]) == [] <==> c in " \t\n\r\U{0B}\U{0C}"
  {
    assert [c][1..] == [] && [c][..0] == [];
    assert TrimLeft([c]) == if Blank(c) then [] else [c];
  }

  /** Neither end is blank. */
  predicate Trimmed(s: text) {
    s == [] || (!Blank(s[0]) && !Blank(s[|s| - 1]))
  }

  /** Position of the first `c` in `s`, or -1. */
  function Index(s: text, c: char): (i: int)
    ensures -1 <= i < |s|
    ensures i == -1 ==> c !in s
    ensures i >= 0 ==> s[i] == c && c !in s[..i]
  {
    if s == [] then -1
    else if s[0] == c then 0
    else
      var i := Index(s[1..], c);
      assert s == [s[0]] + s[1..];
      if i == -1 then -1 else (assert s[..i + 1] == [s[0]] + s[1..][..i]; i + 1)
  }

  lemma IndexOf(a: text, c: char, b: text)
    requires c !in a
    ensures Index(a + [c] + b, c) == |a|
  {
    var s := a + [c] + b;
    assert s[..|a|] == a && s[|a|] == c;
    var i := Index(s, c);
  }

  lemma {:induction false} TrimLeftTrims(s: text)
    ensures var t := TrimLeft(s);
            && |t| <= |s| && t == s[|s| - |t|..]
            && (t == [] || !Blank(t[0]))
            && (forall c :: c in t ==> c in s)
  {
    if s != [] && Blank(s[0]) { TrimLeftTrims(s[1..]); }
  }

  lemma {:induction false} TrimRightTrims(s: text)
    ensures var t := TrimRight(s);
            && |t| <= |s| && t == s[..|t|]
            && (t == [] || !Blank(t[|t| - 1]))
  {
    if s != [] && Blank(s[|s| - 1]) { TrimRightTrims(s[..|s| - 1]); }
  }

  /** Trimming leaves a part of the text with no blank at either end. */
  lemma TrimTrims(s: text)
    ensures Trimmed(Trim(s))
    ensures forall c :: c in Trim(s) ==> c in s
  {
    TrimLeftTrims(s);
    TrimRightTrims(TrimLeft(s));
  }

  lemma TrimNone(s: text)
    requires Trimmed(s)
    ensures Trim(s) == s
  {
  }

  lemma {:induction false} TrimRightBlanks(s: text, blanks: text)
    requires forall c :: c in blanks ==> Blank(c)
    ensures TrimRight(s + blanks) == TrimRight(s)
  {
    if blanks == [] {
      assert s + blanks == s;
    } else {
      var n := |blanks| - 1;
      assert (s + blanks)[..|s| + n] == s + blanks[..n];
      assert blanks[n] in blanks;
      TrimRightBlanks(s, blanks[..n]);
    }
  }

  /** What is left after trimming starts with a character that is not blank. */
  lemma TrimLeftSome(s: text)
    ensures TrimLeft(s) != [] ==> exists c :: c in s && !Blank(c)
  {
    TrimLeftTrims(s);
    var t := TrimLeft(s);
    if t != [] { assert t[0] in t && !Blank(t[0]); }
  }

  lemma {:induction false} TrimAllBlank(s: text)
    ensures Trim(s) == [] <==> forall c :: c in s ==> Blank(c)
  {
    TrimLeftSome(s);
    if exists c :: c in s && !Blank(c) { TrimKeepsSome(s); }
  }

  lemma {:induction false} TrimKeepsSome(s: text)
    requires exists c :: c in s && !Blank(c)
    ensures Trim(s) != []
  {
    var c :| c in s && !Blank(c);
    TrimLeftKeeps(s, c);
    TrimRightKeeps(TrimLeft(s), c);
  }

  lemma {:induction false} TrimLeftKeeps(s: text, c: char)
    requires c in s && !Blank(c)
    ensures c in TrimLeft(s)
  {
    if Blank(s[0]) {
      assert s == [s[0]] + s[1..];
      TrimLeftKeeps(s[1..], c);
    }
  }

  lemma {:induction false} TrimRightKeeps(s: text, c: char)
    requires c in s && !Blank(c)
    ensures c in TrimRight(s)
  {
    var n := |s| - 1;
    if Blank(s[n]) {
      assert s == s[..n] + [s[n]];
      TrimRightKeeps(s[..n], c);
    }
  }

  // ---------------------------------------------------------------------------
  // Lines
  // ---------------------------------------------------------------------------

  /** The lines of a text, without their newlines; a last line needs no newline.  (The
      reader also drops a carriage return before a newline; trimming does that anyway.) */
  function Lines(data: text): seq<text>
    decreases |data|
  {
    if data == [] then []
    else
      var i := Index(data, '\n');
      if i == -1 then [data] else [data[..i]] + Lines(data[i + 1..])
  }

  lemma NoLines()
    ensures Lines([]) == []
  {
  }

  /** The first line and the lines of what follows it. */
  lemma LinesCut(data: text)
    requires data != []
    ensures var newline := Index(data, '\n');
            Lines(data) == if newline == -1 then [data] + Lines([]) else [data[..newline]] + Lines(data[newline + 1..])
  {
    hide Index;
    NoLines();
  }

  lemma LinesCons(line: text, rest: text)
    requires '\n' !in line
    ensures Lines(line + "\n" + rest) == [line] + Lines(rest)
  {
    var data := line + "\n" + rest;
    IndexOf(line, '\n', rest);
    assert data[..|line|] == line && data[|line| + 1..] == rest;
  }

  /** A text of whole lines. */
  predicate Whole(a: text) { a == [] || a[|a| - 1] == '\n' }

  lemma Regroup<T>(a: seq<T>, b: seq<T>, c: seq<T>, d: seq<T>)
    ensures (a + b + c) + d == a + b + (c + d)
  {
  }

  lemma FirstLine(a: text) returns (line: text, rest: text)
    requires a != [] && Whole(a)
    ensures '\n' !in line && Whole(rest) && a == line + "\n" + rest
  {
    var i := Index(a, '\n');
    line, rest := a[..i], a[i + 1..];
  }

  lemma {:induction false} LinesAppend(a: text, b: text)
    requires Whole(a)
    ensures Lines(a + b) == Lines(a) + Lines(b)
    decreases |a|
  {
    if a == [] {
      assert a + b == b;
    } else {
      hide Lines, Whole, Index;
      var line, rest := FirstLine(a);
      LinesAppend(rest, b);
      Regroup(line, "\n", rest, b);
      LinesCons(line, rest + b);
      LinesCons(line, rest);
      Regroup([], [line], Lines(rest), Lines(b));
      assert [] + [line] == [line];
    }
  }

  lemma LinesOne(line: text)
    requires '\n' !in line
    ensures Lines(line + "\n") == [line]
  {
    assert line + "\n" + [] == line + "\n";
    LinesCons(line, []);
  }
}
