/** Files for which the round trip falls short, as the reader receives them. */
module ConfigExamples {
  import opened Wrappers
  import opened ConfigText
  import opened ConfigComments
  import opened NetworkConfigs
  import opened ConfigRoundTrip
  import opened ConfigReprint
  import opened ConfigLayouts
  import opened ConfigTheorems
  import opened ConfigRounds

  /** The file with the given lines. */
  function File(lines: seq<text>): text {
    if lines == [] then [] else lines[0] + "\n" + File(lines[1..])
  }

  lemma {:induction false} FileLines(lines: seq<text>)
    requires forall l :: l in lines ==> '\n' !in l
    ensures Lines(File(lines)) == lines
  {
    hide Lines;
    if lines == [] {
      NoLines();
    } else {
      FileLines(lines[1..]);
      assert lines[0] in lines;
      LinesCons(lines[0], File(lines[1..]));
    }
  }

  lemma {:induction false} FileAppend(lines: seq<text>, last: text)
    ensures File(lines + [last]) == File(lines) + (last + "\n")
  {
    if lines == [] {
      assert [] + [last] == [last] && [last][1..] == [];
      assert File([last]) == last + "\n" + [];
    } else {
      assert (lines + [last])[1..] == lines[1..] + [last];
      FileAppend(lines[1..], last);
    }
  }

  predicate SectionName(name: text) { Trimmed(name) && ']' !in name && '\n' !in name }

  // ---------------------------------------------------------------------------
  // A repeated key
  // ---------------------------------------------------------------------------

  function EntryLines(entries: seq<Entry>): seq<text> {
    seq(|entries|, i requires 0 <= i < |entries| => EntryLine(entries[i]))
  }

  predicate Plain(entries: seq<Entry>) {
    forall i :: 0 <= i < |entries| ==> EntryOk(entries[i]) && entries[i].comment == []
  }

  lemma EntryLinesSnoc(entries: seq<Entry>, n: nat)
    requires |entries| == n + 1
    ensures EntryLines(entries) == EntryLines(entries[..n]) + [EntryLine(entries[n])]
  {
    hide EntryLine;
  }

  lemma PlainEntryText(e: Entry)
    requires e.comment == []
    ensures EntryText(e) == EntryLine(e) + "\n"
  {
    hide EntryLine, CommentText;
    BlankCommentText();
    assert [] + (EntryLine(e) + "\n") == EntryLine(e) + "\n";
  }

  lemma {:induction false} PlainText(name: text, entries: seq<Entry>)
    requires Plain(entries)
    ensures HeaderLine(name) + "\n" + EntriesText(entries) == File([HeaderLine(name)] + EntryLines(entries))
  {
    hide HeaderLine, EntryLine, EntryText, EntryOk, File;
    var head := HeaderLine(name);
    if entries == [] {
      assert [head] + EntryLines([]) == [head];
      FileAppend([], head);
      assert [] + [head] == [head];
      EmptyFile();
      assert head + "\n" + [] == [] + (head + "\n");
    } else {
      var n := |entries| - 1;
      var before, last := EntryLines(entries[..n]), EntryLine(entries[n]);
      PlainText(name, entries[..n]);
      EntryLinesSnoc(entries, n);
      PlainEntryText(entries[n]);
      hide EntryLines, Plain;
      Associative([head], before, [last]);
      FileAppend([head] + before, last);
      Associative(head + "\n", EntriesText(entries[..n]), last + "\n");
    }
  }

  lemma EmptyFile()
    ensures File([]) == []
  {
  }

  lemma Associative<T>(a: seq<T>, b: seq<T>, c: seq<T>)
    ensures a + (b + c) == a + b + c
  {
  }

  lemma BlankCommentText()
    ensures CommentText([]) == []
  {
  }

  lemma PlainPrint(name: text, entries: seq<Entry>)
    requires Plain(entries)
    ensures Print([Section(name, [], entries)]) == File([HeaderLine(name)] + EntryLines(entries))
  {
    hide EntriesText, HeaderLine, Plain;
    PlainText(name, entries);
    BlankCommentText();
    var doc := [Section(name, [], entries)];
    assert doc[..0] == [];
    assert SectionText(doc[0]) == [] + (HeaderLine(name) + "\n") + EntriesText(entries);
  }

  lemma PlainOk(name: text, entries: seq<Entry>)
    requires Plain(entries) && SectionName(name)
    ensures var doc := [Section(name, [], entries)];
            DocumentOk(doc) && DistinctNames(doc) && SqueezeDocument(doc) == doc
  {
    hide EntryOk;
    assert Squeeze([]) == [];
    assert SqueezeEntries(entries) == entries;
  }

  /** A file of plain settings is read to the result of its assignments. */
  lemma PlainFile(name: text, entries: seq<Entry>, limit: nat)
    requires Plain(entries) && SectionName(name)
    requires forall l :: l in [HeaderLine(name)] + EntryLines(entries) ==> |l| < limit
    ensures var parsed := ParseText(File([HeaderLine(name)] + EntryLines(entries)), limit);
            && parsed.error.None? && name in parsed.reader.sections
            && parsed.reader.sections[name] == Bag(name, [], 0, FieldMap(entries))
  {
    var doc, lines := [Section(name, [], entries)], [HeaderLine(name)] + EntryLines(entries);
    forall l | l in lines ensures '\n' !in l {
      HeaderLineClean(name);
      if l in EntryLines(entries) {
        var i :| 0 <= i < |entries| && l == EntryLines(entries)[i];
        EntryLineClean(entries[i]);
      }
    }
    hide ParseText, FieldMap, Lines, HeaderLine, EntryLine, Plain, MapDocument, Print, DocumentOk, SectionName, File;
    PlainPrint(name, entries);
    PlainOk(name, entries);
    FileLines(lines);
    RereadGives(doc, limit);
    SectionMapExact(doc);
    assert SectionMap(doc)[doc[0].name] == BagOf(doc[0], 0);
  }

  /** A file that sets a key again is read without an error, and gives that key the index of
      the key set after it. */
  lemma RepeatedKeyFile(name: text, a: Entry, b: Entry, again: Entry, c: Entry, limit: nat)
    requires SectionName(name) && Plain([a, b, again, c])
    requires a.key == again.key && a.key != b.key && c.key != a.key
    requires forall l :: l in [HeaderLine(name)] + EntryLines([a, b, again, c]) ==> |l| < limit
    ensures var parsed := ParseText(File([HeaderLine(name)] + EntryLines([a, b, again, c])), limit);
            && parsed.error.None? && name in parsed.reader.sections
            && var fields := parsed.reader.sections[name].fields;
            && a.key in fields && c.key in fields && fields[a.key].index == fields[c.key].index == 2
  {
    hide ParseText, FieldMap, Lines, HeaderLine, EntryLine, Plain, SectionName, File, EntryLines;
    PlainFile(name, [a, b, again, c], limit);
    var two := [a, b];
    assert two[0].key == again.key;
    SetAgainSharesIndex(two, again, c);
    assert two + [again, c] == [a, b, again, c];
    FieldMapExact(two);
  }

  /** For example the five lines `[s]`, `a = 1`, `b = 2`, `a = 3`, `c = 4`. */
  lemma RepeatedKeyExample()
    ensures var parsed := ParseText(File(["[s]", "a = 1", "b = 2", "a = 3", "c = 4"]), 4096);
            && parsed.error.None? && "s" in parsed.reader.sections
            && var fields := parsed.reader.sections["s"].fields;
            && "a" in fields && "c" in fields && fields["a"].index == fields["c"].index == 2
  {
    var a, b, again, c := Entry("a", "1", []), Entry("b", "2", []), Entry("a", "3", []), Entry("c", "4", []);
    var lines := ["[s]", "a = 1", "b = 2", "a = 3", "c = 4"];
    assert EntryLine(a) == "a = 1" && EntryLine(b) == "b = 2" && EntryLine(again) == "a = 3" && EntryLine(c) == "c = 4";
    assert EntryLines([a, b, again, c]) == ["a = 1", "b = 2", "a = 3", "c = 4"];
    assert HeaderLine("s") == "[s]";
    assert [HeaderLine("s")] + EntryLines([a, b, again, c]) == lines;
    assert a.key != b.key && c.key != a.key;
    hide ParseText, File, EntryLines, HeaderLine;
    RepeatedKeyFile("s", a, b, again, c, 4096);
  }

  // ---------------------------------------------------------------------------
  // Lines that grow
  // ---------------------------------------------------------------------------

  /** A comment line as the reader keeps it. */
  predicate Marked(t: text) {
    t != [] && (t[0] == '#' || t[0] == ';') && Trimmed(t) && '\n' !in t
  }

  function Commented(c: text, name: text): Document { [Section(name, c, [])] }

  lemma MarkedTrims(t: text)
    requires Marked(t)
    ensures Trim(t) == t
  {
    TrimNone(t);
  }

  lemma DraftFour(d: Draft, lines: seq<text>)
    requires |lines| == 4
    ensures var d1 := DraftStep(d, lines[0]);
            var d2 := DraftStep(d1, lines[1]);
            var d3 := DraftStep(d2, lines[2]);
            && DraftAll(d, lines) == DraftStep(d3, lines[3])
            && (LinesOk(d, lines) <==>
                  LineOk(d, lines[0]) && LineOk(d1, lines[1]) && LineOk(d2, lines[2]) && LineOk(d3, lines[3]))
  {
    hide LineOk, DraftStep;
    var a, b, c := lines[1..], lines[1..][1..], lines[1..][1..][1..];
    assert a[0] == lines[1] && b[0] == lines[2] && c[0] == lines[3] && c[1..] == [];
    var d1 := DraftStep(d, lines[0]);
    var d2 := DraftStep(d1, a[0]);
    var d3 := DraftStep(d2, b[0]);
    var d4 := DraftStep(d3, c[0]);
    assert DraftAll(d4, c[1..]) == d4 && LinesOk(d4, c[1..]);
    assert DraftAll(d3, c) == d4 && (LinesOk(d3, c) <==> LineOk(d3, c[0]));
    assert DraftAll(d2, b) == d4 && (LinesOk(d2, b) <==> LineOk(d2, b[0]) && LinesOk(d3, c));
    assert DraftAll(d1, a) == d4 && (LinesOk(d1, a) <==> LineOk(d1, a[0]) && LinesOk(d2, b));
  }

  /** Two comment lines with a blank line between them, then a header. */
  function CommentFile(a: text, b: text, name: text): seq<text> { [a, [], b, HeaderLine(name)] }

  lemma CommentFileReads(a: text, b: text, name: text)
    requires Marked(a) && Marked(b) && SectionName(name)
    ensures Lines(File(CommentFile(a, b, name))) == CommentFile(a, b, name)
    ensures DocumentOf(File(CommentFile(a, b, name))) == Commented(a + "\n" + b, name)
    ensures LinesOk(EMPTY_DRAFT, CommentFile(a, b, name))
  {
    var lines := CommentFile(a, b, name);
    HeaderLineClean(name);
    FileLines(lines);
    MarkedTrims(a);
    MarkedTrims(b);
    TrimNone([]);
    HeaderLineReads(Draft([], a + "\n" + b), name);
    DraftFour(EMPTY_DRAFT, lines);
    hide Trim, Index, Lines, File, HeaderLine, Trimmed;
    assert [] + a == a;
    assert DraftStep(EMPTY_DRAFT, a) == Draft([], a);
    assert DraftStep(Draft([], a), []) == Draft([], a + "\n");
    assert DraftStep(Draft([], a + "\n"), b) == Draft([], a + "\n" + b);
    assert [] + [Section(name, a + "\n" + b, [])] == Commented(a + "\n" + b, name);
  }

  lemma JoinedComment(a: text, b: text)
    requires Marked(a) && Marked(b)
    ensures Squeeze(a + "\n" + b) == a + b
    ensures Squeeze(a + b) == a + b
    ensures Trim(a + "\n" + b) != [] && Trim(a + b) != []
  {
    SqueezeCons(a, b);
    assert b[0] != '\n' by { assert b[0] in b; }
    assert b + [] == b && a + b + [] == a + b;
    DropKeepsText(b, [], false);
    DropKeepsText(a + b, [], false);
    TrimAllBlank(a + "\n" + b);
    TrimAllBlank(a + b);
    assert (a + "\n" + b)[0] == a[0] && (a + b)[0] == a[0];
  }

  lemma CommentedPrint(c: text, lines: seq<text>, name: text)
    requires Trim(c) != [] && c + "\n" == File(lines)
    ensures Print(Commented(c, name)) == File(lines + [HeaderLine(name)])
  {
    hide Trim, HeaderLine, File;
    FileAppend(lines, HeaderLine(name));
    var doc := Commented(c, name);
    assert doc[..0] == [];
    assert SectionText(doc[0]) == c + "\n" + (HeaderLine(name) + "\n") + [];
  }

  lemma TwoLines(a: text, b: text)
    ensures a + "\n" + b + "\n" == File([a, b]) && a + b + "\n" == File([a + b])
  {
    assert [a, b][1..] == [b] && [b][1..] == [] && [a + b][1..] == [];
    assert File([b]) == b + "\n" + [];
    assert File([a, b]) == a + "\n" + (b + "\n");
  }

  lemma CommentedFits(a: text, b: text, name: text, limit: nat)
    requires Marked(a) && Marked(b) && SectionName(name)
    requires |a| < limit && |b| < limit && |HeaderLine(name)| < limit <= |a| + |b|
    ensures LinesFit(Print(Commented(a + "\n" + b, name)), limit)
    ensures !LinesFit(Print(Commented(a + b, name)), limit)
  {
    hide Lines, File, Print, Trim, HeaderLine, Trimmed, Squeeze;
    JoinedComment(a, b);
    TwoLines(a, b);
    CommentedPrint(a + "\n" + b, [a, b], name);
    CommentedPrint(a + b, [a + b], name);
    HeaderLineClean(name);
    FileLines([a, b] + [HeaderLine(name)]);
    FileLines([a + b] + [HeaderLine(name)]);
    assert a + b in [a + b] + [HeaderLine(name)];
  }

  lemma CommentedSqueezes(a: text, b: text, name: text)
    requires Marked(a) && Marked(b)
    ensures Rounds(Commented(a + "\n" + b, name), 1) == Commented(a + b, name)
  {
    JoinedComment(a, b);
    var doc := Commented(a + "\n" + b, name);
    assert SqueezeEntries([]) == [];
    assert SqueezeSection(doc[0]) == Section(name, Squeeze(a + "\n" + b), []);
    assert SqueezeDocument(doc) == Commented(a + b, name);
    assert Rounds(doc, 1) == Rounds(SqueezeDocument(doc), 0);
  }

  /** Two comment lines that fit the limit, but not when joined, are read and their reprint
      is read; the reprint of that is not, whatever the iteration orders. */
  lemma SecondRoundFails(a: text, b: text, name: text, limit: nat, layouts: seq<Layout>, end: Option<Sections>)
    requires Marked(a) && Marked(b) && SectionName(name)
    requires |a| < limit && |b| < limit && |HeaderLine(name)| < limit <= |a| + |b|
    ensures var parsed := ParseText(File(CommentFile(a, b, name)), limit);
            && parsed.error.None?
            && (Runs(parsed.reader.sections, layouts, limit, end) ==>
                  (|layouts| == 1 ==> end.Some?) && (|layouts| == 2 ==> end.None?))
  {
    hide Lines, File, Print, Trim, HeaderLine, Trimmed, Squeeze, Runs, LinesFit, DocumentOk, SectionMap, Readable, Parse,
      DraftAll, LinesOk;
    var data, doc := File(CommentFile(a, b, name)), Commented(a + "\n" + b, name);
    CommentFileReads(a, b, name);
    EmptyDocument();
    ParseSucceedsExactly(EMPTY_DRAFT, Lines(data), 1, limit);
    ReadGives(data, limit);
    if Runs(SectionMap(doc), layouts, limit, end) {
      RunGives(doc, layouts, limit, end);
      CommentedFits(a, b, name, limit);
      CommentedSqueezes(a, b, name);
    }
  }

  /** For example the lines `#a`, blank, `#b` and `[s]` with a limit of 4. */
  lemma SecondRoundExample(layouts: seq<Layout>, end: Option<Sections>)
    ensures var parsed := ParseText(File(["#a", "", "#b", "[s]"]), 4);
            && parsed.error.None?
            && (Runs(parsed.reader.sections, layouts, 4, end) ==>
                  (|layouts| == 1 ==> end.Some?) && (|layouts| == 2 ==> end.None?))
  {
    assert HeaderLine("s") == "[s]";
    assert CommentFile("#a", "#b", "s") == ["#a", "", "#b", "[s]"];
    hide ParseText, File, HeaderLine, Runs, CommentFile;
    SecondRoundFails("#a", "#b", "s", 4, layouts, end);
  }

  // ---------------------------------------------------------------------------
  // The printed form
  // ---------------------------------------------------------------------------

  /** A comment is followed by a newline unless it is blank; a field's key and value stand
      around an equals sign with a space on either side. */
  lemma PrintedExample()
    ensures HeaderText("s", "#c") == "#c\n[s]\n"
    ensures FieldText(Field("k", "v", "\n", 0)) == "\nk = v\n"
    ensures FieldText(Field("l", "w", "", 1)) == "l = w\n"
  {
    assert CommentText("#c") == "#c\n" && CommentText("\n") == "\n" && CommentText("") == "";
    hide CommentText;
  }
}
