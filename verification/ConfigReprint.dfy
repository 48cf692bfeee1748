/** Printing a document and reading the printed text. */
module ConfigReprint {
  import opened ConfigText
  import opened ConfigComments
  import opened ConfigRoundTrip

  // ---------------------------------------------------------------------------
  // The printed text of a document
  // ---------------------------------------------------------------------------

  function EntryLine(e: Entry): text { e.key + " = " + e.value }

  function EntryText(e: Entry): text { CommentText(e.comment) + (EntryLine(e) + "\n") }

  function EntriesText(entries: seq<Entry>): text {
    if entries == [] then [] else EntriesText(entries[..|entries| - 1]) + EntryText(entries[|entries| - 1])
  }

  function HeaderLine(name: text): text { "[" + name + "]" }

  function SectionText(s: Section): text { CommentText(s.comment) + (HeaderLine(s.name) + "\n") + EntriesText(s.entries) }

  function Print(doc: Document): text {
    if doc == [] then [] else Print(doc[..|doc| - 1]) + SectionText(doc[|doc| - 1])
  }

  // A document with every comment changed by `f`.

  function MapEntries(f: text -> text, entries: seq<Entry>): seq<Entry> {
    seq(|entries|, i requires 0 <= i < |entries| => entries[i].(comment := f(entries[i].comment)))
  }

  function MapSection(f: text -> text, s: Section): Section { Section(s.name, f(s.comment), MapEntries(f, s.entries)) }

  function MapDocument(f: text -> text, doc: Document): Document {
    seq(|doc|, i requires 0 <= i < |doc| => MapSection(f, doc[i]))
  }

  function SqueezeEntries(entries: seq<Entry>): seq<Entry> { MapEntries(Squeeze, entries) }

  function SqueezeSection(s: Section): Section { MapSection(Squeeze, s) }

  function SqueezeDocument(doc: Document): Document { MapDocument(Squeeze, doc) }

  // ---------------------------------------------------------------------------
  // Reading the pieces back
  // ---------------------------------------------------------------------------

  /** Blank and comment lines only add to the comment. */
  lemma {:induction false} ReadCommentLines(d: Draft, lines: seq<text>)
    requires forall l :: l in lines ==> CommentLine(l)
    ensures LinesOk(d, lines)
    ensures DraftAll(d, lines) == Draft(d.doc, d.comment + Gather(lines))
    decreases |lines|
  {
    hide Trim;
    if lines == [] {
      assert d.comment + [] == d.comment;
    } else {
      assert CommentLine(lines[0]);
      ReadCommentLines(DraftStep(d, lines[0]), lines[1..]);
    }
  }

  lemma ReadComment(doc: Document, c: text)
    requires CommentOk(c)
    ensures LinesOk(Draft(doc, []), Lines(CommentText(c)))
    ensures DraftAll(Draft(doc, []), Lines(CommentText(c))) == Draft(doc, Squeeze(c))
  {
    hide CommentText, Lines, Gather, CommentLine, Squeeze;
    PrintedCommentLines(c);
    PrintedCommentReadsBack(c);
    ReadCommentLines(Draft(doc, []), Lines(CommentText(c)));
    assert [] + Squeeze(c) == Squeeze(c);
  }

  /** A comment and then one line. */
  lemma CommentedLine(c: text, line: text)
    requires CommentOk(c) && '\n' !in line
    ensures Whole(CommentText(c) + (line + "\n"))
    ensures Lines(CommentText(c) + (line + "\n")) == Lines(CommentText(c)) + [line]
  {
    hide CommentText, Lines;
    PrintedCommentLines(c);
    LinesAppend(CommentText(c), line + "\n");
    LinesOne(line);
  }

  lemma ReadCommentedLine(doc: Document, c: text, line: text)
    requires CommentOk(c) && '\n' !in line && LineOk(Draft(doc, Squeeze(c)), line)
    ensures var lines := Lines(CommentText(c) + (line + "\n"));
            && LinesOk(Draft(doc, []), lines)
            && DraftAll(Draft(doc, []), lines) == DraftStep(Draft(doc, Squeeze(c)), line)
  {
    hide CommentText, Lines, Squeeze, DraftStep, LineOk;
    ReadComment(doc, c);
    CommentedLine(c, line);
    var d := Draft(doc, Squeeze(c));
    DraftAllAppend(Draft(doc, []), Lines(CommentText(c)), [line]);
    LinesOkAppend(Draft(doc, []), Lines(CommentText(c)), [line]);
    assert DraftAll(d, [line]) == DraftAll(DraftStep(d, line), []);
  }

  lemma HeaderLineReads(d: Draft, name: text)
    requires Trimmed(name) && ']' !in name && !HasName(d.doc, name)
    ensures LineOk(d, HeaderLine(name))
    ensures DraftStep(d, HeaderLine(name)) == Draft(d.doc + [Section(name, d.comment, [])], [])
  {
    var t := HeaderLine(name);
    TrimNone(t);
    assert t == ("[" + name) + [']'] + [];
    IndexOf("[" + name, ']', []);
    assert t[1..1 + |name|] == name;
    TrimNone(name);
  }

  /** Trimming a printed field removes at most the blank after the separator. */
  lemma EntryLineTrims(e: Entry)
    requires EntryOk(e)
    ensures Trim(EntryLine(e)) == if e.value == [] then e.key + " =" else EntryLine(e)
  {
    if e.value == [] {
      var t := e.key + " =";
      TrimNone(t);
      assert EntryLine(e) == t + " ";
      assert TrimLeft(t + " ") == t + " ";
      TrimRightBlanks(t, " ");
      assert TrimLeft(t) == t;
    } else {
      TrimNone(EntryLine(e));
    }
  }

  lemma KeyTrims(key: text)
    requires Trimmed(key) && key != []
    ensures Trim(key + " ") == key
  {
    assert TrimLeft(key + " ") == key + " ";
    TrimRightBlanks(key, " ");
    TrimNone(key);
    assert TrimLeft(key) == key;
  }

  lemma ValueTrims(value: text)
    requires Trimmed(value)
    ensures Trim(" " + value) == value
  {
    assert (" " + value)[1..] == value;
    assert TrimLeft(" " + value) == TrimLeft(value);
    TrimNone(value);
  }

  lemma EntryParts(e: Entry)
    requires EntryOk(e)
    ensures var t := Trim(EntryLine(e));
            && t != [] && t[0] == e.key[0]
            && Index(t, '=') == |e.key| + 1
            && Trim(t[..|e.key| + 1]) == e.key
            && Trim(t[|e.key| + 2..]) == e.value
  {
    hide Trim;
    var t := Trim(EntryLine(e));
    EntryLineTrims(e);
    var after := if e.value == [] then [] else " " + e.value;
    assert t == (e.key + " ") + ['='] + after;
    IndexOf(e.key + " ", '=', after);
    assert t[..|e.key| + 1] == e.key + " " && t[|e.key| + 2..] == after;
    KeyTrims(e.key);
    ValueTrims(e.value);
    TrimNone([]);
  }

  lemma EntryLineReads(d: Draft, e: Entry)
    requires EntryOk(e) && d.doc != []
    ensures LineOk(d, EntryLine(e))
    ensures DraftStep(d, EntryLine(e)) == Draft(AddEntry(d.doc, Entry(e.key, e.value, d.comment)), [])
  {
    hide Trim, Index;
    EntryParts(e);
  }

  /** The lines of the printed fields add the fields, with squeezed comments. */
  lemma {:induction false} ReadEntries(doc: Document, s: Section, k: nat)
    requires SectionOk(s) && k <= |s.entries|
    ensures var text := EntriesText(s.entries[..k]);
            var d := Draft(doc + [Section(s.name, Squeeze(s.comment), [])], []);
            && Whole(text)
            && LinesOk(d, Lines(text))
            && DraftAll(d, Lines(text))
               == Draft(doc + [Section(s.name, Squeeze(s.comment), SqueezeEntries(s.entries[..k]))], [])
    decreases k
  {
    hide Lines, Squeeze, CommentText, EntryOk, EntryLine, LineOk, LinesOk, DraftAll, EntriesText, Whole;
    var d := Draft(doc + [Section(s.name, Squeeze(s.comment), [])], []);
    if k == 0 {
      assert SqueezeEntries(s.entries[..0]) == [];
      assert s.entries[..0] == [];
      ReadNothing(d);
    } else {
      var e, done := s.entries[k - 1], SqueezeEntries(s.entries[..k - 1]);
      var doc' := doc + [Section(s.name, Squeeze(s.comment), done)];
      ReadEntries(doc, s, k - 1);
      EntryLineClean(e);
      EntryLineReads(Draft(doc', Squeeze(e.comment)), e);
      EntryOkComment(e);
      ReadCommentedLine(doc', e.comment, EntryLine(e));
      CommentedLine(e.comment, EntryLine(e));
      EntriesStep(s.entries, k);
      var before, last := EntriesText(s.entries[..k - 1]), EntryText(e);
      LinesAppend(before, last);
      LinesOkAppend(d, Lines(before), Lines(last));
      DraftAllAppend(d, Lines(before), Lines(last));
      assert SqueezeEntries(s.entries[..k]) == done + [e.(comment := Squeeze(e.comment))];
      assert doc'[..|doc' | - 1] == doc;
      WholeAppend(before, last);
    }
  }

  lemma ReadNothing(d: Draft)
    ensures EntriesText([]) == [] && Whole([])
    ensures LinesOk(d, Lines([])) && DraftAll(d, Lines([])) == d
  {
    NoLines();
  }

  lemma WholeAppend(a: text, b: text)
    requires Whole(a) && Whole(b)
    ensures Whole(a + b)
  {
  }

  lemma EntriesStep(entries: seq<Entry>, k: nat)
    requires 0 < k <= |entries|
    ensures EntriesText(entries[..k]) == EntriesText(entries[..k - 1]) + EntryText(entries[k - 1])
  {
    hide EntryText;
    assert entries[..k][..k - 1] == entries[..k - 1];
  }

  lemma EntryLineClean(e: Entry)
    requires EntryOk(e)
    ensures '\n' !in EntryLine(e)
  {
  }

  lemma EntryOkComment(e: Entry)
    requires EntryOk(e)
    ensures CommentOk(e.comment)
  {
  }

  lemma ReadSection(doc: Document, s: Section)
    requires SectionOk(s) && !HasName(doc, s.name)
    ensures var lines := Lines(SectionText(s));
            && Whole(SectionText(s))
            && LinesOk(Draft(doc, []), lines)
            && DraftAll(Draft(doc, []), lines) == Draft(doc + [SqueezeSection(s)], [])
  {
    hide Lines, Squeeze, CommentText, EntryOk, CommentOk, HeaderLine;
    var head, entries := CommentText(s.comment) + (HeaderLine(s.name) + "\n"), EntriesText(s.entries);
    HeaderLineClean(s.name);
    HeaderLineReads(Draft(doc, Squeeze(s.comment)), s.name);
    ReadCommentedLine(doc, s.comment, HeaderLine(s.name));
    CommentedLine(s.comment, HeaderLine(s.name));
    assert s.entries[..|s.entries|] == s.entries;
    ReadEntries(doc, s, |s.entries|);
    LinesAppend(head, entries);
    LinesOkAppend(Draft(doc, []), Lines(head), Lines(entries));
    DraftAllAppend(Draft(doc, []), Lines(head), Lines(entries));
    WholeAppend(head, entries);
  }

  lemma HeaderLineClean(name: text)
    requires '\n' !in name
    ensures '\n' !in HeaderLine(name)
  {
  }

  /** Reading a printed document gives the document back with its comments squeezed:
      the same sections, keys and values in the same order, and no error. */
  lemma {:induction false} ReadPrinted(doc: Document, k: nat)
    requires DocumentOk(doc) && DistinctNames(doc) && k <= |doc|
    ensures var text := Print(doc[..k]);
            && Whole(text)
            && LinesOk(Draft([], []), Lines(text))
            && DraftAll(Draft([], []), Lines(text)) == Draft(SqueezeDocument(doc[..k]), [])
    decreases k
  {
    hide Lines, SectionText, SectionOk, MapSection;
    if k == 0 {
      NoLines();
      assert SqueezeDocument(doc[..0]) == [];
    } else {
      ReadPrinted(doc, k - 1);
      FreshName(doc, k - 1);
      var s, before := doc[k - 1], Print(doc[..k - 1]);
      ReadSection(SqueezeDocument(doc[..k - 1]), s);
      assert doc[..k][..k - 1] == doc[..k - 1];
      assert Print(doc[..k]) == before + SectionText(s);
      LinesAppend(before, SectionText(s));
      LinesOkAppend(Draft([], []), Lines(before), Lines(SectionText(s)));
      DraftAllAppend(Draft([], []), Lines(before), Lines(SectionText(s)));
      assert SqueezeDocument(doc[..k]) == SqueezeDocument(doc[..k - 1]) + [SqueezeSection(s)];
      WholeAppend(before, SectionText(s));
    }
  }

  lemma FreshName(doc: Document, k: nat)
    requires DistinctNames(doc) && k < |doc|
    ensures !HasName(SqueezeDocument(doc[..k]), doc[k].name)
  {
    hide Squeeze, SqueezeEntries;
  }
}
