/** The configuration object: reading a file into its sections, with what every error
    reports, and printing them. */
module ConfigFiles {
  import opened Wrappers
  import opened ConfigText
  import opened ConfigComments
  import opened NetworkConfigs
  import opened ConfigRoundTrip
  import opened ConfigTheorems

  // ---------------------------------------------------------------------------
  // What an error reports
  // ---------------------------------------------------------------------------

  ghost predicate LineFits(line: text, limit: nat) { |line| < limit }

  ghost predicate AllFit(lines: seq<text>, limit: nat) {
    forall i :: 0 <= i < |lines| ==> LineFits(lines[i], limit)
  }

  /** The name between the bracket that opens a header and the first that closes it. */
  ghost predicate Names(header: text, name: text) {
    exists right :: 0 < right < |header| && header[right] == ']' && ']' !in header[..right] && name == Trim(header[1..right])
  }

  /** Line `n`, after the sections of `doc`, is what the error says it is. */
  ghost predicate Reports(doc: Document, line: text, n: nat, limit: nat, e: Error) {
    var t := Trim(line);
    && e.line == n
    && (e.LineTooLong? <==> !LineFits(line, limit))
    && (LineFits(line, limit) ==>
          && t != [] && t[0] != ';' && t[0] != '#'
          && (e.WrongHeader? <==> t[0] == '[' && ']' !in t)
          && (e.DuplicateSection? <==> t[0] == '[' && ']' in t)
          && (e.DuplicateSection? ==> Names(t, e.name) && HasName(doc, e.name))
          && (e.NoSeparator? <==> t[0] != '[' && '=' !in t)
          && (e.EmptyKey? <==> t[0] == '=')
          && (e.NoSection? <==> t[0] != '[' && t[0] != '=' && '=' in t)
          && (e.NoSection? ==> doc == []))
  }

  /** Reading stops at line `k`, the first that is too long or not in order: the sections are
      those of the lines before it, and the error reports it. */
  ghost predicate StopsAt(d: Draft, lines: seq<text>, k: nat, n: nat, limit: nat, sections: Sections, e: Error) {
    && k < |lines| && AllFit(lines[..k], limit) && LinesOk(d, lines[..k])
    && var before := DraftAll(d, lines[..k]);
       && (!LineFits(lines[k], limit) || !LineOk(before, lines[k]))
       && sections == SectionMap(before.doc)
       && Reports(before.doc, lines[k], n + k, limit, e)
  }

  /** Without an error every line fits and is in order and the sections are those of the
      document; with one, reading stopped there. */
  ghost predicate Outcome(d: Draft, lines: seq<text>, n: nat, limit: nat, sections: Sections, error: Option<Error>) {
    && (error.None? <==> AllFit(lines, limit) && LinesOk(d, lines))
    && match error
       case None => sections == SectionMap(DraftAll(d, lines).doc)
       case Some(e) => exists k: nat :: StopsAt(d, lines, k, n, limit, sections, e)
  }

  lemma StepReports(d: Draft, line: text, n: nat, limit: nat)
    requires DistinctNames(d.doc) && LineFits(line, limit) && !LineOk(d, line)
    ensures Step(ReaderOf(d), line, n).Failure? && Reports(d.doc, line, n, limit, Step(ReaderOf(d), line, n).error)
  {
    hide Trim, Index, SectionMap, HasName;
    var t := Trim(line);
    if t[0] == '[' {
      var right := Index(t, ']');
      if right != -1 {
        SectionMapKeys(d.doc, Trim(t[1..right]));
        assert Names(t, Trim(t[1..right]));
      }
    } else {
      var sep := Index(t, '=');
    }
  }

  /** For every text and limit, in every state of the reader: which outcome it is. */
  lemma {:induction false} ParseOutcome(d: Draft, lines: seq<text>, n: nat, limit: nat)
    requires DistinctNames(d.doc)
    ensures var parsed := Parse(ReaderOf(d), lines, n, limit);
            Outcome(d, lines, n, limit, parsed.reader.sections, parsed.error)
    decreases |lines|
  {
    hide Step, LineOk, DraftStep, Reports, SectionMap;
    if lines != [] {
      var line, rest := lines[0], lines[1..];
      if !LineFits(line, limit) {
        TooLongReports(d.doc, line, n, limit);
        StopsHere(d, lines, n, limit, LineTooLong(n));
      } else if LineOk(d, line) {
        StepAgrees(d, line, n);
        StepDistinct(d, line);
        ParseOutcome(DraftStep(d, line), rest, n + 1, limit);
        OutcomeBehind(d, lines, n, limit, Parse(ReaderOf(d), lines, n, limit));
      } else {
        StepReports(d, line, n, limit);
        StopsHere(d, lines, n, limit, Step(ReaderOf(d), line, n).error);
      }
    }
  }

  lemma TooLongReports(doc: Document, line: text, n: nat, limit: nat)
    requires !LineFits(line, limit)
    ensures Reports(doc, line, n, limit, LineTooLong(n))
  {
  }

  lemma StopsHere(d: Draft, lines: seq<text>, n: nat, limit: nat, e: Error)
    requires lines != [] && (!LineFits(lines[0], limit) || !LineOk(d, lines[0]))
    requires Reports(d.doc, lines[0], n, limit, e)
    ensures Outcome(d, lines, n, limit, SectionMap(d.doc), Some(e))
  {
    hide LineOk, DraftStep, Reports, SectionMap, LineFits;
    assert lines[..0] == [];
    assert StopsAt(d, lines, 0, n, limit, SectionMap(d.doc), e);
  }

  /** What holds of the lines after the first holds of all lines. */
  lemma OutcomeBehind(d: Draft, lines: seq<text>, n: nat, limit: nat, parsed: Parsed)
    requires lines != [] && LineFits(lines[0], limit) && LineOk(d, lines[0])
    requires Outcome(DraftStep(d, lines[0]), lines[1..], n + 1, limit, parsed.reader.sections, parsed.error)
    ensures Outcome(d, lines, n, limit, parsed.reader.sections, parsed.error)
  {
    hide LineOk, DraftStep, Reports, SectionMap, LineFits;
    var rest := lines[1..];
    assert lines == [lines[0]] + rest;
    if parsed.error.Some? {
      var k: nat :| StopsAt(DraftStep(d, lines[0]), rest, k, n + 1, limit, parsed.reader.sections, parsed.error.value);
      assert lines[..k + 1][1..] == rest[..k];
      assert lines[..k + 1] == [lines[0]] + rest[..k];
      assert StopsAt(d, lines, k + 1, n, limit, parsed.reader.sections, parsed.error.value);
    }
  }

  lemma ReadOutcome(data: text, limit: nat)
    ensures var parsed := Parse(Reader(map[], None, []), Lines(data), 1, limit);
            Outcome(EMPTY_DRAFT, Lines(data), 1, limit, parsed.reader.sections, parsed.error)
  {
    EmptyDocument();
    ParseOutcome(EMPTY_DRAFT, Lines(data), 1, limit);
  }

  // ---------------------------------------------------------------------------
  // The object
  // ---------------------------------------------------------------------------

  class NetworkConfig {
    var sections: Sections

    constructor ()
      ensures sections == map[]
    {
      sections := map[];
    }

    /** Adds what `data` says to the sections, up to the first line in error. */
    method UnmarshalBinary(data: text, limit: nat) returns (error: Option<Error>)
      modifies this
      ensures var parsed := Parse(Reader(old(sections), None, []), Lines(data), 1, limit);
              sections == parsed.reader.sections && error == parsed.error
      ensures old(sections) == map[] ==> Outcome(EMPTY_DRAFT, Lines(data), 1, limit, sections, error)
    {
      if sections == map[] { ReadOutcome(data, limit); }
      hide Step, Lines, Index, Outcome;
      var comment, current := [], None;
      var rest, n := data, 1;
      ghost var result := Parse(Reader(sections, None, []), Lines(data), 1, limit);
      while rest != []
        invariant Parse(Reader(sections, current, comment), Lines(rest), n, limit) == result
        decreases |rest|
      {
        var newline := Index(rest, '\n');
        LinesCut(rest);
        var line := if newline == -1 then rest else rest[..newline];
        if |line| >= limit { return Some(LineTooLong(n)); }
        var step := Step(Reader(sections, current, comment), line, n);
        if step.Failure? { return Some(step.error); }
        sections, current, comment := step.value.sections, step.value.current, step.value.comment;
        rest, n := if newline == -1 then [] else rest[newline + 1..], n + 1;
      }
      NoLines();
      return None;
    }

    /** Prints each section, its fields by index. */
    method BagStrings(names: seq<text>) returns (texts: map<text, text>, ghost keys: map<text, seq<text>>)
      requires forall name :: name in names ==> name in sections
      ensures texts.Keys == keys.Keys
      ensures forall name :: name in keys <==> name in names
      ensures forall name :: name in keys ==> Sorted(sections[name].fields, keys[name], FieldIndex)
      ensures forall name :: name in keys ==>
                KeysWithin(sections[name].fields, keys[name]) && texts[name] == BagText(sections[name], keys[name])
    {
      hide BagText, Sorted;
      texts, keys := map[], map[];
      var i := 0;
      while i < |names|
        invariant 0 <= i <= |names|
        invariant texts.Keys == keys.Keys
        invariant forall name :: name in keys <==> name in names[..i]
        invariant forall name :: name in keys ==> Sorted(sections[name].fields, keys[name], FieldIndex)
        invariant forall name :: name in keys ==> KeysWithin(sections[name].fields, keys[name])
        invariant forall name :: name in keys ==> texts[name] == BagText(sections[name], keys[name])
      {
        assert names[i] in names;
        var t := BagString(sections[names[i]]);
        ghost var ks :| Prints(sections[names[i]], ks, t);
        texts, keys := texts[names[i] := t], keys[names[i] := ks];
        i := i + 1;
      }
      assert names[..i] == names;
    }

    /** Prints the sections by index, and the fields of each by index. */
    method MarshalBinary() returns (s: text)
      ensures exists layout :: Lays(sections, layout) && s == Printed(sections, layout)
    {
      hide BagText, Ordered;
      var order := Iterate(sections);
      var names := SortByIndex(sections, order, BagIndex);
      var texts, keys := BagStrings(names);
      ghost var layout := Layout(names, keys);
      s := [];
      var i := 0;
      while i < |names|
        invariant 0 <= i <= |names|
        invariant s == SectionsText(sections, names[..i], layout)
      {
        SectionsTextNext(sections, layout, i);
        s := s + texts[names[i]];
        i := i + 1;
      }
      assert names[..i] == names;
      assert Lays(sections, layout);
    }
  }
}
