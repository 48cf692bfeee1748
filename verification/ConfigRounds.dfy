/** Any number of rounds of printing and reading, with the reader's limit on line lengths.
    A round joins comment lines, so a text that fits can be followed by one that does not. */
module ConfigRounds {
  import opened Wrappers
  import opened ConfigText
  import opened ConfigComments
  import opened NetworkConfigs
  import opened ConfigRoundTrip
  import opened ConfigReprint
  import opened ConfigLayouts
  import opened ConfigTheorems

  // ---------------------------------------------------------------------------
  // Squeezing only makes lines longer
  // ---------------------------------------------------------------------------

  /** Every line of `c` fits, `w` characters of the first having been seen already. */
  predicate Fits(c: text, w: nat, limit: nat) {
    if c == [] then w == 0 || w < limit
    else if c[0] == '\n' then w < limit && Fits(c[1..], 0, limit)
    else Fits(c[1..], w + 1, limit)
  }

  lemma {:induction false} FitsText(t: text, rest: text, w: nat, limit: nat)
    requires '\n' !in t
    ensures Fits(t + rest, w, limit) <==> Fits(rest, w + |t|, limit)
  {
    if t == [] {
      assert t + rest == rest;
    } else {
      assert t[0] in t && (t + rest)[1..] == t[1..] + rest;
      FitsText(t[1..], rest, w + 1, limit);
    }
  }

  lemma {:induction false} FitsLines(data: text, limit: nat)
    ensures Fits(data, 0, limit) <==> LinesFit(data, limit)
    decreases |data|
  {
    hide Lines, Index;
    if data == [] {
      NoLines();
    } else {
      var i := Index(data, '\n');
      LinesCut(data);
      if i == -1 {
        NoLines();
        FitsText(data, [], 0, limit);
        assert data + [] == data;
      } else {
        var t, rest := data[..i], data[i + 1..];
        var tail := ['\n'] + rest;
        assert data == t + tail;
        FitsText(t, tail, 0, limit);
        assert tail[1..] == rest;
        FitsLines(rest, limit);
        FitsFirst(data, t, rest, limit);
      }
    }
  }

  lemma FitsFirst(data: text, t: text, rest: text, limit: nat)
    requires Lines(data) == [t] + Lines(rest)
    ensures LinesFit(data, limit) <==> |t| < limit && LinesFit(rest, limit)
  {
    hide Lines;
    assert t in Lines(data);
    assert forall l :: l in Lines(data) <==> l == t || l in Lines(rest);
  }

  lemma {:induction false} FitsWidth(c: text, w: nat, limit: nat)
    requires Fits(c, w, limit)
    ensures w == 0 || w < limit
  {
    if c != [] && c[0] != '\n' { FitsWidth(c[1..], w + 1, limit); }
  }

  lemma {:induction false} DropFits(c: text, prev: bool, w: nat, w': nat, limit: nat)
    requires (prev ==> w > 0) && w' <= w && Fits(Drop(c, prev), w, limit)
    ensures Fits(c, w', limit)
  {
    FitsWidth(Drop(c, prev), w, limit);
    if c != [] {
      if c[0] == '\n' && prev && HasText(c) {
        DropFits(c[1..], false, w, 0, limit);
      } else {
        assert Drop(c, prev)[1..] == Drop(c[1..], c[0] != '\n');
        if c[0] == '\n' {
          DropFits(c[1..], false, 0, 0, limit);
        } else {
          DropFits(c[1..], true, w + 1, w' + 1, limit);
        }
      }
    }
  }

  lemma {:induction false} DropNewline(c: text, prev: bool)
    ensures Drop(c + "\n", prev) == Drop(c, prev) + "\n"
    ensures HasText(c + "\n") <==> HasText(c)
  {
    hide HasText;
    HasTextTail(c + "\n");
    if c == [] {
      assert (c + "\n")[1..] == [] && c + "\n" == "\n";
      NoTextIn([]);
    } else {
      HasTextTail(c);
      assert (c + "\n")[1..] == c[1..] + "\n";
      if c[0] == '\n' && prev && HasText(c) {
        DropNewline(c[1..], false);
      } else {
        DropNewline(c[1..], c[0] != '\n');
      }
    }
  }

  lemma NoTextIn(c: text)
    ensures c == [] ==> !HasText(c)
  {
  }

  lemma {:induction false} DropBlank(c: text, prev: bool)
    ensures (forall x :: x in Drop(c, prev) ==> Blank(x)) <==> (forall x :: x in c ==> Blank(x))
  {
    if c != [] {
      assert c == [c[0]] + c[1..];
      if c[0] == '\n' && prev && HasText(c) {
        DropBlank(c[1..], false);
      } else {
        DropBlank(c[1..], c[0] != '\n');
        assert Drop(c, prev) == [c[0]] + Drop(c[1..], c[0] != '\n');
      }
    }
  }

  lemma CommentFits(c: text, limit: nat)
    requires LinesFit(CommentText(Squeeze(c)), limit)
    ensures LinesFit(CommentText(c), limit)
  {
    hide Lines, Trim;
    TrimAllBlank(c);
    TrimAllBlank(Squeeze(c));
    DropBlank(c, false);
    FitsLines(CommentText(Squeeze(c)), limit);
    FitsLines(CommentText(c), limit);
    DropNewline(c, false);
    DropFits(CommentText(c), false, 0, 0, limit);
  }

  lemma FitJoin(a: text, b: text, limit: nat)
    requires Whole(a)
    ensures LinesFit(a + b, limit) <==> LinesFit(a, limit) && LinesFit(b, limit)
  {
    hide Lines;
    LinesAppend(a, b);
    assert forall l :: l in Lines(a) + Lines(b) <==> l in Lines(a) || l in Lines(b);
  }

  lemma CommentWhole(c: text)
    requires CommentOk(c)
    ensures Whole(CommentText(c))
  {
    PrintedCommentLines(c);
  }

  lemma EntryFits(e: Entry, limit: nat)
    requires CommentOk(e.comment) && CommentOk(Squeeze(e.comment))
    requires LinesFit(EntryText(e.(comment := Squeeze(e.comment))), limit)
    ensures LinesFit(EntryText(e), limit)
  {
    hide LinesFit, CommentText, Squeeze, CommentOk, EntryLine;
    var line := EntryLine(e) + "\n";
    CommentWhole(e.comment);
    CommentWhole(Squeeze(e.comment));
    assert EntryLine(e.(comment := Squeeze(e.comment))) == EntryLine(e) by { SameLine(e, Squeeze(e.comment)); }
    FitJoin(CommentText(e.comment), line, limit);
    FitJoin(CommentText(Squeeze(e.comment)), line, limit);
    CommentFits(e.comment, limit);
  }

  lemma SameLine(e: Entry, c: text)
    ensures EntryLine(e.(comment := c)) == EntryLine(e)
  {
  }

  lemma {:induction false} EntriesWhole(entries: seq<Entry>)
    ensures Whole(EntriesText(entries))
  {
    if entries != [] { assert EntriesText(entries)[|EntriesText(entries)| - 1] == '\n'; }
  }

  lemma {:induction false} EntriesFit(entries: seq<Entry>, k: nat, limit: nat)
    requires k <= |entries|
    requires forall i :: 0 <= i < |entries| ==> CommentOk(entries[i].comment) && CommentOk(Squeeze(entries[i].comment))
    requires LinesFit(EntriesText(SqueezeEntries(entries)[..k]), limit)
    ensures LinesFit(EntriesText(entries[..k]), limit)
    decreases k
  {
    hide LinesFit, EntryText, Squeeze, CommentOk, EntriesText, Whole;
    var squeezed := SqueezeEntries(entries);
    if k == 0 {
      assert squeezed[..0] == [] && entries[..0] == [];
    } else {
      EntriesStep(entries, k);
      EntriesStep(squeezed, k);
      EntriesWhole(entries[..k - 1]);
      EntriesWhole(squeezed[..k - 1]);
      FitJoin(EntriesText(entries[..k - 1]), EntryText(entries[k - 1]), limit);
      FitJoin(EntriesText(squeezed[..k - 1]), EntryText(squeezed[k - 1]), limit);
      EntriesFit(entries, k - 1, limit);
      EntryFits(entries[k - 1], limit);
    }
  }

  lemma CommentsOk(s: Section)
    requires SectionOk(s)
    ensures CommentOk(s.comment) && forall i :: 0 <= i < |s.entries| ==> CommentOk(s.entries[i].comment)
  {
  }

  lemma SectionFits(s: Section, limit: nat)
    requires SectionOk(s) && SectionOk(SqueezeSection(s))
    requires LinesFit(SectionText(SqueezeSection(s)), limit)
    ensures LinesFit(SectionText(s), limit)
  {
    hide LinesFit, CommentText, Squeeze, CommentOk, EntriesText, HeaderLine, SectionOk;
    var squeezed := SqueezeSection(s);
    CommentsOk(s);
    CommentsOk(squeezed);
    var line := HeaderLine(s.name) + "\n";
    forall i | 0 <= i < |s.entries| ensures CommentOk(s.entries[i].comment) && CommentOk(Squeeze(s.entries[i].comment)) {
      assert CommentOk(squeezed.entries[i].comment);
    }
    CommentWhole(s.comment);
    CommentWhole(squeezed.comment);
    FitJoin(CommentText(s.comment), line, limit);
    FitJoin(CommentText(squeezed.comment), line, limit);
    FitJoin(CommentText(s.comment) + line, EntriesText(s.entries), limit);
    FitJoin(CommentText(squeezed.comment) + line, EntriesText(squeezed.entries), limit);
    CommentFits(s.comment, limit);
    assert s.entries[..|s.entries|] == s.entries && squeezed.entries[..|s.entries|] == squeezed.entries;
    EntriesFit(s.entries, |s.entries|, limit);
  }

  lemma SectionWhole(s: Section)
    ensures Whole(SectionText(s))
  {
    hide CommentText, EntriesText, HeaderLine;
    EntriesWhole(s.entries);
    var head := CommentText(s.comment) + (HeaderLine(s.name) + "\n");
    assert head[|head| - 1] == '\n';
  }

  lemma {:induction false} DocumentWhole(doc: Document)
    ensures Whole(Print(doc))
  {
    hide SectionText, Whole;
    if doc == [] {
      ReadNothing(EMPTY_DRAFT);
    } else {
      var n := |doc| - 1;
      DocumentWhole(doc[..n]);
      SectionWhole(doc[n]);
      WholeAppend(Print(doc[..n]), SectionText(doc[n]));
    }
  }

  lemma PrintStep(doc: Document, k: nat)
    requires 0 < k <= |doc|
    ensures Print(doc[..k]) == Print(doc[..k - 1]) + SectionText(doc[k - 1])
  {
    hide SectionText;
    assert doc[..k][..k - 1] == doc[..k - 1];
  }

  lemma {:induction false} PrefixFits(doc: Document, k: nat, limit: nat)
    requires DocumentOk(doc) && DocumentOk(SqueezeDocument(doc)) && k <= |doc|
    requires LinesFit(Print(SqueezeDocument(doc)[..k]), limit)
    ensures LinesFit(Print(doc[..k]), limit)
    decreases k
  {
    hide LinesFit, SectionText, SectionOk, MapSection, Print, Whole;
    var squeezed := SqueezeDocument(doc);
    if k == 0 {
      assert squeezed[..0] == [] && doc[..0] == [];
    } else {
      PrintStep(doc, k);
      PrintStep(squeezed, k);
      DocumentWhole(doc[..k - 1]);
      DocumentWhole(squeezed[..k - 1]);
      FitJoin(Print(doc[..k - 1]), SectionText(doc[k - 1]), limit);
      FitJoin(Print(squeezed[..k - 1]), SectionText(squeezed[k - 1]), limit);
      PrefixFits(doc, k - 1, limit);
      assert SectionOk(doc[k - 1]) && SectionOk(squeezed[k - 1]);
      SectionFits(doc[k - 1], limit);
    }
  }

  /** If the text after a round fits the reader, so did the text before it. */
  lemma PrintFits(doc: Document, limit: nat)
    requires DocumentOk(doc) && DocumentOk(SqueezeDocument(doc))
    requires LinesFit(Print(SqueezeDocument(doc)), limit)
    ensures LinesFit(Print(doc), limit)
  {
    hide LinesFit, Print, DocumentOk, MapSection;
    var squeezed := SqueezeDocument(doc);
    assert doc[..|doc|] == doc && squeezed[..|doc|] == squeezed;
    PrefixFits(doc, |doc|, limit);
  }

  // ---------------------------------------------------------------------------
  // Rounds of documents
  // ---------------------------------------------------------------------------

  function Rounds(doc: Document, n: nat): Document
    decreases n
  {
    if n == 0 then doc else Rounds(SqueezeDocument(doc), n - 1)
  }

  lemma {:induction false} RoundsFit(doc: Document, n: nat, limit: nat)
    requires DocumentOk(doc) && DistinctNames(doc) && LinesFit(Print(Rounds(doc, n)), limit)
    ensures LinesFit(Print(doc), limit)
    decreases n
  {
    hide LinesFit, Print, DocumentOk, MapDocument, DistinctNames;
    if n > 0 {
      RereadGives(doc, limit);
      SqueezeNamesDistinct(doc);
      RoundsFit(SqueezeDocument(doc), n - 1, limit);
      PrintFits(doc, limit);
    }
  }

  lemma SqueezeNamesDistinct(doc: Document)
    requires DistinctNames(doc)
    ensures DistinctNames(SqueezeDocument(doc))
  {
    hide Squeeze;
  }

  /** Newlines between comment texts, at most `n` in each comment. */
  predicate InnerAtMost(doc: Document, n: nat) {
    forall i :: 0 <= i < |doc| ==>
      && InnerNewlines(doc[i].comment, false) <= n
      && forall j :: 0 <= j < |doc[i].entries| ==> InnerNewlines(doc[i].entries[j].comment, false) <= n
  }

  /** All newlines between the texts of a comment removed. */
  function StripComment(c: text): text { Strip(c, false) }

  function StripDocument(doc: Document): Document { MapDocument(StripComment, doc) }

  function StripSections(sections: Sections): Sections { MapSections(StripComment, sections) }

  lemma SqueezeReduces(doc: Document, n: nat)
    requires InnerAtMost(doc, n)
    ensures InnerAtMost(SqueezeDocument(doc), if n == 0 then 0 else n - 1)
  {
    hide InnerNewlines, Squeeze;
    var m := if n == 0 then 0 else n - 1;
    var doc' := SqueezeDocument(doc);
    forall i | 0 <= i < |doc|
      ensures InnerNewlines(doc'[i].comment, false) <= m
      ensures forall j :: 0 <= j < |doc[i].entries| ==> InnerNewlines(doc'[i].entries[j].comment, false) <= m
    {
      SqueezeProgress(doc[i].comment);
      forall j | 0 <= j < |doc[i].entries| ensures InnerNewlines(doc'[i].entries[j].comment, false) <= m {
        SqueezeProgress(doc[i].entries[j].comment);
      }
    }
  }

  /** Two changes of comments that agree on a document's comments give one document. */
  lemma SameMap(f: text -> text, g: text -> text, doc: Document, doc': Document)
    requires |doc| == |doc'|
    requires forall i :: 0 <= i < |doc| ==>
               && doc[i].name == doc'[i].name && |doc[i].entries| == |doc'[i].entries|
               && f(doc[i].comment) == g(doc'[i].comment)
               && forall j :: 0 <= j < |doc[i].entries| ==>
                    && doc[i].entries[j].key == doc'[i].entries[j].key
                    && doc[i].entries[j].value == doc'[i].entries[j].value
                    && f(doc[i].entries[j].comment) == g(doc'[i].entries[j].comment)
    ensures MapDocument(f, doc) == MapDocument(g, doc')
  {
    forall i | 0 <= i < |doc| ensures MapSection(f, doc[i]) == MapSection(g, doc'[i]) {
      assert MapEntries(f, doc[i].entries) == MapEntries(g, doc'[i].entries);
    }
  }

  lemma StripSqueezed(doc: Document)
    ensures StripDocument(SqueezeDocument(doc)) == StripDocument(doc)
  {
    hide Strip, Drop;
    forall c ensures StripComment(Squeeze(c)) == StripComment(c) { StripDrop(c, false, false); }
    hide Squeeze, StripComment;
    SameMap(StripComment, StripComment, SqueezeDocument(doc), doc);
  }

  function Same(c: text): text { c }

  lemma StripStripped(doc: Document)
    requires InnerAtMost(doc, 0)
    ensures StripDocument(doc) == doc
  {
    hide Strip;
    forall c ensures InnerNewlines(c, false) == 0 ==> StripComment(c) == c {
      if InnerNewlines(c, false) == 0 { StripNothing(c, false); }
    }
    hide StripComment;
    SameMap(StripComment, Same, doc, doc);
    MapNothing(doc);
  }

  lemma MapNothing(doc: Document)
    ensures MapDocument(Same, doc) == doc
  {
    forall i | 0 <= i < |doc| ensures MapSection(Same, doc[i]) == doc[i] {
      forall j | 0 <= j < |doc[i].entries| ensures MapEntries(Same, doc[i].entries)[j] == doc[i].entries[j] {
        assert Same(doc[i].entries[j].comment) == doc[i].entries[j].comment;
      }
    }
  }

  /** As many rounds as there are newlines between the texts of a comment strip it. */
  lemma {:induction false} RoundsStrip(doc: Document, n: nat)
    requires InnerAtMost(doc, n)
    ensures Rounds(doc, n) == StripDocument(doc) && InnerAtMost(StripDocument(doc), 0)
    decreases n
  {
    hide InnerAtMost, MapDocument;
    if n == 0 {
      StripStripped(doc);
    } else {
      SqueezeReduces(doc, n);
      StripSqueezed(doc);
      RoundsStrip(SqueezeDocument(doc), n - 1);
    }
  }

  lemma {:induction false} MoreRounds(doc: Document, n: nat)
    ensures Rounds(doc, n + 1) == SqueezeDocument(Rounds(doc, n))
    decreases n
  {
    if n > 0 { MoreRounds(SqueezeDocument(doc), n - 1); }
  }

  // ---------------------------------------------------------------------------
  // Rounds of the printer and the reader
  // ---------------------------------------------------------------------------

  /** `end` is what rounds of printing and reading lead to, `None` if some read fails, when
      the maps are iterated so as to sort into one layout after the other. */
  ghost predicate Runs(sections: Sections, layouts: seq<Layout>, limit: nat, end: Option<Sections>)
    decreases |layouts|
  {
    if layouts == [] then end == Some(sections)
    else
      && Lays(sections, layouts[0])
      && var again := Reread(sections, layouts[0], limit);
      if again.error.Some? then end == None else Runs(again.reader.sections, layouts[1..], limit, end)
  }

  /** One round of a document without repetitions. */
  lemma RoundOf(doc: Document, layout: Layout, limit: nat)
    requires DocumentOk(doc) && Distinct(doc) && Lays(SectionMap(doc), layout)
    ensures var again := Reread(SectionMap(doc), layout, limit);
            && (again.error.None? <==> LinesFit(Print(doc), limit))
            && (again.error.None? ==> again.reader.sections == SectionMap(SqueezeDocument(doc)))
    ensures DocumentOk(SqueezeDocument(doc)) && Distinct(SqueezeDocument(doc))
  {
    hide LinesFit, Print, DocumentOk, MapDocument, SectionMap, Lays, Reread, Laid, Readable, Printed, Distinct, DistinctNames,
      ParseText;
    DistinctHasNames(doc);
    DocumentReadable(doc);
    RereadLaid(SectionMap(doc), layout, limit);
    LaidBack(doc, layout);
    SqueezeOk(doc);
  }

  lemma {:induction false} RunGives(doc: Document, layouts: seq<Layout>, limit: nat, end: Option<Sections>)
    requires DocumentOk(doc) && Distinct(doc) && Runs(SectionMap(doc), layouts, limit, end)
    ensures end.Some? ==> end.value == SectionMap(Rounds(doc, |layouts|))
    ensures end.Some? <==> layouts == [] || LinesFit(Print(Rounds(doc, |layouts| - 1)), limit)
    decreases |layouts|
  {
    hide LinesFit, Print, DocumentOk, MapDocument, SectionMap, Lays, Reread, Distinct, DistinctNames;
    if layouts != [] {
      RoundOf(doc, layouts[0], limit);
      DistinctHasNames(doc);
      var n := |layouts| - 1;
      if LinesFit(Print(doc), limit) {
        RunGives(SqueezeDocument(doc), layouts[1..], limit, end);
      } else if LinesFit(Print(Rounds(doc, n)), limit) {
        RoundsFit(doc, n, limit);
        assert false;
      }
    }
  }

  lemma DistinctHasNames(doc: Document)
    requires Distinct(doc)
    ensures DistinctNames(doc)
  {
  }

  /** For any maps a reader may hold and any iteration orders: all rounds are read without
      an error exactly when what the last of them prints fits the reader's limit. */
  lemma RoundsExactly(sections: Sections, layouts: seq<Layout>, limit: nat, end: Option<Sections>)
    requires Readable(sections) && layouts != [] && Runs(sections, layouts, limit, end)
    ensures Lays(sections, layouts[0])
    ensures var doc := Laid(sections, layouts[0]);
            && (end.Some? <==> LinesFit(Print(Rounds(doc, |layouts| - 1)), limit))
            && (end.Some? ==> end.value == SectionMap(Rounds(doc, |layouts|)))
  {
    hide LinesFit, Print, DocumentOk, MapDocument, SectionMap, Lays, Reread, Laid, Readable, Printed, Distinct, DistinctNames;
    var doc := Laid(sections, layouts[0]);
    LaidIsRead(sections, layouts[0]);
    DistinctHasNames(doc);
    RereadLaid(sections, layouts[0], limit);
    RereadGives(doc, limit);
    MapDistinct(Squeeze, doc);
    if LinesFit(Print(doc), limit) {
      RunGives(SqueezeDocument(doc), layouts[1..], limit, end);
    } else if LinesFit(Print(Rounds(doc, |layouts| - 1)), limit) {
      RoundsFit(doc, |layouts| - 1, limit);
      assert false;
    }
  }

  /** More rounds than the longest comment has newlines between its texts all succeed if and
      only if the print with every such newline removed fits the limit.  They then end in
      those comments and otherwise the same contents, and a further round changes nothing. */
  lemma RoundsSettle(sections: Sections, layouts: seq<Layout>, limit: nat, end: Option<Sections>, n: nat)
    requires Readable(sections) && n < |layouts| && Runs(sections, layouts, limit, end)
    requires Lays(sections, layouts[0]) && InnerAtMost(Laid(sections, layouts[0]), n)
    ensures end.Some? <==> LinesFit(Print(StripDocument(Laid(sections, layouts[0]))), limit)
    ensures end.Some? ==>
              && end.value == SectionMap(StripDocument(Laid(sections, layouts[0])))
              && SameButIndices(StripSections(sections), end.value)
              && forall layout :: Lays(end.value, layout) ==>
                   Reread(end.value, layout, limit).error.None? && Reread(end.value, layout, limit).reader.sections == end.value
  {
    hide LinesFit, Print, DocumentOk, MapDocument, SectionMap, Lays, Laid, Readable, Distinct, InnerAtMost, SameButIndices,
      Runs, Reread, DistinctNames, MapSections;
    RoundsExactly(sections, layouts, limit, end);
    var doc := Laid(sections, layouts[0]);
    StripKept(doc, n, |layouts| - 1);
    StripKept(doc, n, |layouts|);
    if end.Some? {
      LaidKeepsContents(sections, layouts[0]);
      MapAgrees(StripComment, sections, SectionMap(doc));
      MapSectionMap(StripComment, doc);
      var stripped := StripDocument(doc);
      RoundsStrip(doc, n);
      LaidIsRead(sections, layouts[0]);
      StrippedOk(doc, n);
      forall layout | Lays(end.value, layout)
        ensures Reread(end.value, layout, limit).error.None? && Reread(end.value, layout, limit).reader.sections == end.value
      {
        StrippedStays(stripped, layout, limit);
      }
    }
  }

  /** Rounds past the last newline between texts change nothing. */
  lemma {:induction false} StripKept(doc: Document, n: nat, m: nat)
    requires InnerAtMost(doc, n) && n <= m
    ensures Rounds(doc, m) == StripDocument(doc)
    decreases m
  {
    hide InnerAtMost, MapDocument;
    RoundsStrip(doc, n);
    if n < m {
      StripKept(doc, n, m - 1);
      MoreRounds(doc, m - 1);
      SqueezeStripped(StripDocument(doc));
    }
  }

  lemma SqueezeStripped(doc: Document)
    requires InnerAtMost(doc, 0)
    ensures SqueezeDocument(doc) == doc
  {
    hide Squeeze, InnerNewlines;
    forall c ensures InnerNewlines(c, false) == 0 ==> Squeeze(c) == c { SqueezeProgress(c); }
    SameMap(Squeeze, Same, doc, doc);
    MapNothing(doc);
  }

  lemma SqueezeOk(doc: Document)
    requires DocumentOk(doc) && Distinct(doc)
    ensures DocumentOk(SqueezeDocument(doc)) && Distinct(SqueezeDocument(doc))
  {
    hide DocumentOk, DistinctNames, MapDocument, ParseText, LinesFit, Print;
    RereadGives(doc, 0);
    MapDistinct(Squeeze, doc);
  }

  lemma {:induction false} RoundsOk(doc: Document, n: nat)
    requires DocumentOk(doc) && Distinct(doc)
    ensures DocumentOk(Rounds(doc, n)) && Distinct(Rounds(doc, n))
    decreases n
  {
    hide DocumentOk, Distinct, MapDocument, DistinctNames;
    if n > 0 {
      SqueezeOk(doc);
      RoundsOk(SqueezeDocument(doc), n - 1);
    }
  }

  lemma StrippedOk(doc: Document, n: nat)
    requires DocumentOk(doc) && Distinct(doc) && InnerAtMost(doc, n)
    ensures DocumentOk(StripDocument(doc)) && Distinct(StripDocument(doc))
  {
    hide DocumentOk, Distinct, InnerAtMost, MapDocument;
    RoundsOk(doc, n);
    RoundsStrip(doc, n);
  }

  lemma StrippedStays(doc: Document, layout: Layout, limit: nat)
    requires DocumentOk(doc) && Distinct(doc) && InnerAtMost(doc, 0) && LinesFit(Print(doc), limit)
    requires Lays(SectionMap(doc), layout)
    ensures Reread(SectionMap(doc), layout, limit).error.None?
    ensures Reread(SectionMap(doc), layout, limit).reader.sections == SectionMap(doc)
  {
    hide DocumentOk, Distinct, InnerAtMost, MapDocument, Reread, SectionMap, Lays, LinesFit, Print;
    RoundOf(doc, layout, limit);
    SqueezeStripped(doc);
  }

  /** For a file read without repeated keys: the rounds all succeed if and only if the file's
      own content with stripped comments fits the limit, and then they end in it. */
  lemma FileRounds(data: text, layouts: seq<Layout>, limit: nat, end: Option<Sections>, n: nat)
    requires ParseText(data, limit).error.None? && NoKeyRepeats(DocumentOf(data))
    requires InnerAtMost(DocumentOf(data), n) && n < |layouts|
    requires Runs(ParseText(data, limit).reader.sections, layouts, limit, end)
    ensures end.Some? <==> LinesFit(Print(StripDocument(DocumentOf(data))), limit)
    ensures end.Some? ==> end.value == StripSections(ParseText(data, limit).reader.sections)
  {
    ReadGives(data, limit);
    var doc := DocumentOf(data);
    assert Distinct(doc);
    assert Lays(SectionMap(doc), layouts[0]);
    hide LinesFit, Print, DocumentOk, MapDocument, SectionMap, Lays, Laid, Readable, Distinct, InnerAtMost, SameButIndices,
      Runs, Reread, DistinctNames, MapSections, ParseText, DocumentOf, NoKeyRepeats;
    LaidBack(doc, layouts[0]);
    RoundsSettle(SectionMap(doc), layouts, limit, end, n);
    MapSectionMap(StripComment, doc);
  }

  // ---------------------------------------------------------------------------
  // Rounds exist
  // ---------------------------------------------------------------------------

  function KeyLists(doc: Document): map<text, seq<text>> {
    if doc == [] then map[]
    else KeyLists(doc[..|doc| - 1])[doc[|doc| - 1].name := Keys(doc[|doc| - 1].entries)]
  }

  lemma {:induction false} KeyListsExact(doc: Document)
    requires DistinctNames(doc)
    ensures KeyLists(doc).Keys == SectionMap(doc).Keys
    ensures forall i :: 0 <= i < |doc| ==> doc[i].name in KeyLists(doc) && KeyLists(doc)[doc[i].name] == Keys(doc[i].entries)
  {
    hide Keys, BagOf;
    if doc != [] {
      var n := |doc| - 1;
      KeyListsExact(doc[..n]);
      forall i | 0 <= i < n
        ensures doc[i].name in KeyLists(doc) && KeyLists(doc)[doc[i].name] == Keys(doc[i].entries)
      {
        assert doc[..n][i] == doc[i];
      }
    }
  }

  /** The maps of a document can be laid out in file order. */
  lemma FileLayout(doc: Document)
    requires Distinct(doc)
    ensures Lays(SectionMap(doc), Layout(Names(doc), KeyLists(doc)))
  {
    hide SectionMap, KeyLists, Sorted, FieldMap, DistinctIndices;
    SectionsSorted(doc);
    KeyListsExact(doc);
    SectionMapExact(doc);
    forall name | name in SectionMap(doc)
      ensures Sorted(SectionMap(doc)[name].fields, KeyLists(doc)[name], FieldIndex)
    {
      SectionMapKeys(doc, name);
      var i :| 0 <= i < |doc| && doc[i].name == name;
      FieldsSorted(doc[i].entries);
      assert SectionMap(doc)[doc[i].name] == BagOf(doc[i], i);
    }
  }

  /** Every number of rounds has a run. */
  lemma {:induction false} RunExists(doc: Document, n: nat, limit: nat)
    returns (layouts: seq<Layout>, end: Option<Sections>)
    requires DocumentOk(doc) && Distinct(doc)
    ensures |layouts| == n && Runs(SectionMap(doc), layouts, limit, end)
    decreases n
  {
    hide DocumentOk, Distinct, MapDocument, SectionMap, Lays, Laid, Readable, Reread, DistinctNames, LinesFit, Print, Printed;
    if n == 0 {
      layouts, end := [], Some(SectionMap(doc));
    } else {
      FileLayout(doc);
      var layout := Layout(Names(doc), KeyLists(doc));
      RoundOf(doc, layout, limit);
      layouts, end := RunExists(SqueezeDocument(doc), n - 1, limit);
      layouts := [layout] + layouts;
      if Reread(SectionMap(doc), layout, limit).error.Some? { end := None; }
      assert layouts[1..] == layouts[1..];
    }
  }
}
