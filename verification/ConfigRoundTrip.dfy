/** Reading, printing and reading again.  A document is the configuration in file order,
    without maps or indices; it is the reference that both directions are compared with. */
module ConfigRoundTrip {
  import opened Wrappers
  import opened ConfigText
  import opened ConfigComments
  import opened NetworkConfigs

  datatype Entry = Entry(key: text, value: text, comment: text)
  datatype Section = Section(name: text, comment: text, entries: seq<Entry>)
  type Document = seq<Section>

  /** A document being read: the comment belongs to whatever comes next. */
  datatype Draft = Draft(doc: Document, comment: text)

  // ---------------------------------------------------------------------------
  // The maps of a document
  // ---------------------------------------------------------------------------

  function FieldOf(e: Entry, i: nat): Field { Field(e.key, e.value, e.comment, i) }

  /** The fields after setting `entries` one after the other: the index is the number of
      fields before the assignment, also when a key is set again. */
  function FieldMap(entries: seq<Entry>): map<text, Field> {
    if entries == [] then map[]
    else
      var n := |entries| - 1;
      var before := FieldMap(entries[..n]);
      before[entries[n].key := FieldOf(entries[n], |before|)]
  }

  function BagOf(s: Section, i: nat): Bag { Bag(s.name, s.comment, i, FieldMap(s.entries)) }

  function SectionMap(doc: Document): Sections {
    if doc == [] then map[]
    else
      var n := |doc| - 1;
      SectionMap(doc[..n])[doc[n].name := BagOf(doc[n], n)]
  }

  predicate DistinctKeys(entries: seq<Entry>) {
    forall i, j :: 0 <= i < j < |entries| ==> entries[i].key != entries[j].key
  }

  predicate DistinctNames(doc: Document) {
    forall i, j :: 0 <= i < j < |doc| ==> doc[i].name != doc[j].name
  }

  predicate Distinct(doc: Document) {
    DistinctNames(doc) && forall i :: 0 <= i < |doc| ==> DistinctKeys(doc[i].entries)
  }

  predicate HasKey(entries: seq<Entry>, k: text) { exists i :: 0 <= i < |entries| && entries[i].key == k }

  predicate HasName(doc: Document, k: text) { exists i :: 0 <= i < |doc| && doc[i].name == k }

  lemma {:induction false} FieldMapKeys(entries: seq<Entry>, k: text)
    ensures k in FieldMap(entries) <==> HasKey(entries, k)
  {
    if entries != [] {
      var n := |entries| - 1;
      FieldMapKeys(entries[..n], k);
      if HasKey(entries[..n], k) {
        var i :| 0 <= i < n && entries[..n][i].key == k;
        assert entries[i].key == k;
      }
      if HasKey(entries, k) && entries[n].key != k {
        var i :| 0 <= i < |entries| && entries[i].key == k;
        assert entries[..n][i].key == k;
      }
    }
  }

  /** The field map of distinct keys has one field per entry, numbered by position. */
  lemma {:induction false} FieldMapExact(entries: seq<Entry>)
    requires DistinctKeys(entries)
    ensures |FieldMap(entries)| == |entries|
    ensures forall i :: 0 <= i < |entries| ==>
              entries[i].key in FieldMap(entries) && FieldMap(entries)[entries[i].key] == FieldOf(entries[i], i)
  {
    hide FieldOf;
    if entries != [] {
      var n := |entries| - 1;
      FieldMapExact(entries[..n]);
      FieldMapKeys(entries[..n], entries[n].key);
      forall i | 0 <= i < n
        ensures entries[i].key in FieldMap(entries) && FieldMap(entries)[entries[i].key] == FieldOf(entries[i], i)
      {
        assert entries[..n][i] == entries[i];
      }
    }
  }

  lemma {:induction false} SectionMapKeys(doc: Document, k: text)
    ensures k in SectionMap(doc) <==> HasName(doc, k)
  {
    if doc != [] {
      var n := |doc| - 1;
      SectionMapKeys(doc[..n], k);
      if HasName(doc[..n], k) {
        var i :| 0 <= i < n && doc[..n][i].name == k;
        assert doc[i].name == k;
      }
      if HasName(doc, k) && doc[n].name != k {
        var i :| 0 <= i < |doc| && doc[i].name == k;
        assert doc[..n][i].name == k;
      }
    }
  }

  /** The section map of distinct names has one bag per section, numbered by position. */
  lemma {:induction false} SectionMapExact(doc: Document)
    requires DistinctNames(doc)
    ensures |SectionMap(doc)| == |doc|
    ensures forall i :: 0 <= i < |doc| ==>
              doc[i].name in SectionMap(doc) && SectionMap(doc)[doc[i].name] == BagOf(doc[i], i)
  {
    hide BagOf;
    if doc != [] {
      var n := |doc| - 1;
      SectionMapExact(doc[..n]);
      SectionMapKeys(doc[..n], doc[n].name);
      forall i | 0 <= i < n
        ensures doc[i].name in SectionMap(doc) && SectionMap(doc)[doc[i].name] == BagOf(doc[i], i)
      {
        assert doc[..n][i] == doc[i];
      }
    }
  }

  // ---------------------------------------------------------------------------
  // Reading in file order
  // ---------------------------------------------------------------------------

  function DraftStep(d: Draft, line: text): Draft {
    var t := Trim(line);
    if t == [] then d.(comment := d.comment + "\n")
    else if t[0] == ';' || t[0] == '#' then d.(comment := d.comment + t)
    else if t[0] == '[' then
      var right := Index(t, ']');
      if right == -1 then d else Draft(d.doc + [Section(Trim(t[1..right]), d.comment, [])], [])
    else
      var sep := Index(t, '=');
      if sep <= 0 || d.doc == [] then d
      else Draft(AddEntry(d.doc, Entry(Trim(t[..sep]), Trim(t[sep + 1..]), d.comment)), [])
  }

  function AddEntry(doc: Document, e: Entry): Document
    requires doc != []
  {
    var n := |doc| - 1;
    doc[..n] + [doc[n].(entries := doc[n].entries + [e])]
  }

  function DraftAll(d: Draft, lines: seq<text>): Draft
    decreases |lines|
  {
    if lines == [] then d else DraftAll(DraftStep(d, lines[0]), lines[1..])
  }

  lemma {:induction false} DraftAllAppend(d: Draft, a: seq<text>, b: seq<text>)
    ensures DraftAll(d, a + b) == DraftAll(DraftAll(d, a), b)
    decreases |a|
  {
    if a == [] {
      assert a + b == b;
    } else {
      assert (a + b)[1..] == a[1..] + b;
      DraftAllAppend(DraftStep(d, a[0]), a[1..], b);
    }
  }

  /** The line is read without an error after `d`. */
  predicate LineOk(d: Draft, line: text) {
    var t := Trim(line);
    if t == [] || t[0] == ';' || t[0] == '#' then true
    else if t[0] == '[' then
      var right := Index(t, ']');
      right != -1 && !HasName(d.doc, Trim(t[1..right]))
    else
      var sep := Index(t, '=');
      sep > 0 && d.doc != []
  }

  predicate LinesOk(d: Draft, lines: seq<text>)
    decreases |lines|
  {
    lines == [] || (LineOk(d, lines[0]) && LinesOk(DraftStep(d, lines[0]), lines[1..]))
  }

  lemma {:induction false} LinesOkAppend(d: Draft, a: seq<text>, b: seq<text>)
    requires LinesOk(d, a) && LinesOk(DraftAll(d, a), b)
    ensures LinesOk(d, a + b)
    decreases |a|
  {
    if a == [] {
      assert a + b == b;
    } else {
      assert (a + b)[1..] == a[1..] + b;
      LinesOkAppend(DraftStep(d, a[0]), a[1..], b);
    }
  }

  /** The reader's state that a draft stands for. */
  function ReaderOf(d: Draft): Reader {
    Reader(SectionMap(d.doc), if d.doc == [] then None else Some(d.doc[|d.doc| - 1].name), d.comment)
  }

  lemma StepDistinct(d: Draft, line: text)
    requires DistinctNames(d.doc) && LineOk(d, line)
    ensures DistinctNames(DraftStep(d, line).doc)
  {
    hide Trim, Index;
    var doc, doc' := d.doc, DraftStep(d, line).doc;
    if |doc'| == |doc| > 0 {
      assert forall i :: 0 <= i < |doc| ==> doc'[i].name == doc[i].name;
    }
  }

  /** One line: the reader does to its maps what the draft does to the document. */
  lemma StepAgrees(d: Draft, line: text, n: nat)
    requires DistinctNames(d.doc) && LineOk(d, line)
    ensures Step(ReaderOf(d), line, n) == Success(ReaderOf(DraftStep(d, line)))
  {
    hide Trim, Index;
    var t := Trim(line);
    if t == [] || t[0] == ';' || t[0] == '#' {
    } else if t[0] == '[' {
      HeaderAgrees(d, t, n);
    } else {
      FieldAgrees(d, t, n);
    }
  }

  lemma HeaderAgrees(d: Draft, t: text, n: nat)
    requires DistinctNames(d.doc) && t != [] && t[0] == '[' && Index(t, ']') != -1
    requires !HasName(d.doc, Trim(t[1..Index(t, ']')]))
    ensures HeaderStep(ReaderOf(d), t, n)
            == Success(ReaderOf(Draft(d.doc + [Section(Trim(t[1..Index(t, ']')]), d.comment, [])], [])))
  {
    hide Trim, Index;
    SectionMapExact(d.doc);
    var section := Section(Trim(t[1..Index(t, ']')]), d.comment, []);
    SectionMapKeys(d.doc, section.name);
    assert (d.doc + [section])[..|d.doc|] == d.doc;
  }

  lemma AddEntryMap(doc: Document, e: Entry)
    requires DistinctNames(doc) && doc != []
    ensures var last := |doc| - 1;
            var bag := BagOf(doc[last], last);
            && doc[last].name in SectionMap(doc) && SectionMap(doc)[doc[last].name] == bag
            && SectionMap(AddEntry(doc, e))
               == SectionMap(doc)[bag.name := bag.(fields := bag.fields[e.key := FieldOf(e, |bag.fields|)])]
  {
    var last, doc' := |doc| - 1, AddEntry(doc, e);
    var entries := doc[last].entries;
    SectionMapExact(doc);
    assert doc'[..last] == doc[..last];
    assert (entries + [e])[..|entries|] == entries;
  }

  lemma FieldAgrees(d: Draft, t: text, n: nat)
    requires DistinctNames(d.doc) && d.doc != [] && Index(t, '=') > 0
    ensures var sep := Index(t, '=');
            FieldStep(ReaderOf(d), t, n)
            == Success(ReaderOf(Draft(AddEntry(d.doc, Entry(Trim(t[..sep]), Trim(t[sep + 1..]), d.comment)), [])))
  {
    hide Trim, Index, SectionMap, FieldMap;
    var sep := Index(t, '=');
    AddEntryMap(d.doc, Entry(Trim(t[..sep]), Trim(t[sep + 1..]), d.comment));
  }

  /** Whole texts: a reader that meets no error ends with exactly the maps of the document. */
  lemma {:induction false} ParseAgrees(d: Draft, lines: seq<text>, n: nat, limit: nat)
    requires DistinctNames(d.doc) && LinesOk(d, lines)
    requires forall l :: l in lines ==> |l| < limit
    ensures DistinctNames(DraftAll(d, lines).doc)
    ensures Parse(ReaderOf(d), lines, n, limit) == Parsed(ReaderOf(DraftAll(d, lines)), None)
    decreases |lines|
  {
    if lines != [] {
      assert lines[0] in lines;
      StepAgrees(d, lines[0], n);
      StepDistinct(d, lines[0]);
      ParseAgrees(DraftStep(d, lines[0]), lines[1..], n + 1, limit);
    }
  }

  // ---------------------------------------------------------------------------
  // Which texts are read without error
  // ---------------------------------------------------------------------------

  lemma StepFails(d: Draft, line: text, n: nat)
    requires DistinctNames(d.doc) && !LineOk(d, line)
    ensures Step(ReaderOf(d), line, n).Failure?
  {
    hide Trim, Index;
    var t := Trim(line);
    if t != [] && t[0] == '[' && Index(t, ']') != -1 {
      SectionMapKeys(d.doc, Trim(t[1..Index(t, ']')]));
    }
  }

  /** Reading succeeds exactly when every line is in order and fits
      the reader's buffer. */
  lemma {:induction false} ParseSucceedsExactly(d: Draft, lines: seq<text>, n: nat, limit: nat)
    requires DistinctNames(d.doc)
    ensures Parse(ReaderOf(d), lines, n, limit).error.None?
            <==> LinesOk(d, lines) && forall l :: l in lines ==> |l| < limit
    decreases |lines|
  {
    hide Step, LineOk, DraftStep;
    if lines != [] {
      if |lines[0]| >= limit {
        assert lines[0] in lines;
      } else if LineOk(d, lines[0]) {
        StepAgrees(d, lines[0], n);
        StepDistinct(d, lines[0]);
        ParseSucceedsExactly(DraftStep(d, lines[0]), lines[1..], n + 1, limit);
        assert lines == [lines[0]] + lines[1..];
      } else {
        StepFails(d, lines[0], n);
      }
    }
  }

  // ---------------------------------------------------------------------------
  // Repeated keys
  // ---------------------------------------------------------------------------

  /** `i` is below the number of fields but is the index of none. */
  predicate Gap(m: map<text, Field>, i: nat) {
    i < |m| && forall k :: k in m ==> m[k].index != i
  }

  ghost predicate Numbered(m: map<text, Field>) { forall i: nat :: !Gap(m, i) }

  lemma GapStays(m: map<text, Field>, i: nat, e: Entry)
    requires Gap(m, i)
    ensures Gap(m[e.key := FieldOf(e, |m|)], i)
  {
    var m' := m[e.key := FieldOf(e, |m|)];
    assert m'.Keys == m.Keys + {e.key};
    if e.key in m { assert m'.Keys == m.Keys; }
    forall k | k in m' ensures m'[k].index != i {
    }
  }

  /** Setting a key of a gapless section again frees its index. */
  lemma FirstRepeatLeavesGap(before: seq<Entry>, e: Entry) returns (i: nat)
    requires DistinctKeys(before) && HasKey(before, e.key)
    ensures Gap(FieldMap(before)[e.key := FieldOf(e, |FieldMap(before)|)], i)
  {
    FieldMapExact(before);
    i :| 0 <= i < |before| && before[i].key == e.key;
    var m := FieldMap(before);
    var m' := m[e.key := FieldOf(e, |m|)];
    assert e.key in m;
    assert m'.Keys == m.Keys;
    assert |m'| == |m|;
    hide FieldMap;
    forall k | k in m' ensures m'[k].index != i {
      if k != e.key {
        FieldMapKeys(before, k);
        var c :| 0 <= c < |before| && before[c].key == k;
        assert m[before[c].key] == FieldOf(before[c], c);
        assert c != i;
      }
    }
  }

  lemma {:induction false} RepeatLeavesGap(entries: seq<Entry>) returns (i: nat)
    requires !DistinctKeys(entries)
    ensures Gap(FieldMap(entries), i)
  {
    hide Gap, FieldOf;
    var n := |entries| - 1;
    var before := entries[..n];
    if DistinctKeys(before) {
      RepeatIsLast(entries);
      i := FirstRepeatLeavesGap(before, entries[n]);
    } else {
      i := RepeatLeavesGap(before);
      GapStays(FieldMap(before), i, entries[n]);
    }
  }

  lemma RepeatIsLast(entries: seq<Entry>)
    requires entries != [] && !DistinctKeys(entries) && DistinctKeys(entries[..|entries| - 1])
    ensures HasKey(entries[..|entries| - 1], entries[|entries| - 1].key)
  {
    var n := |entries| - 1;
    var before := entries[..n];
    forall i, j | 0 <= i < j < n ensures entries[i].key != entries[j].key {
      assert before[i].key != before[j].key;
    }
    var a, b :| 0 <= a < b < |entries| && entries[a].key == entries[b].key;
    assert b == n && before[a].key == entries[n].key;
  }

  /** The fields of a section are numbered from 0 without gaps exactly when no key repeats. */
  lemma NumberedExactly(entries: seq<Entry>)
    ensures DistinctKeys(entries) <==> Numbered(FieldMap(entries))
  {
    var m := FieldMap(entries);
    if DistinctKeys(entries) {
      FieldMapExact(entries);
      forall i: nat ensures !Gap(m, i) {
        if i < |entries| { assert m[entries[i].key].index == i; }
      }
    } else {
      var i := RepeatLeavesGap(entries);
      assert Gap(m, i);
    }
  }

  /** A key that is set again shares its index with the key that is set next, so their
      printed order is left to the sort. */
  lemma SetAgainSharesIndex(entries: seq<Entry>, e: Entry, next: Entry)
    requires HasKey(entries, e.key) && next.key != e.key
    ensures var m := FieldMap(entries + [e, next]);
            && e.key in m && next.key in m
            && m[e.key].index == m[next.key].index == |FieldMap(entries)|
  {
    var all := entries + [e, next];
    assert all[..|all| - 1] == entries + [e] && (entries + [e])[..|entries|] == entries;
    var m := FieldMap(entries);
    FieldMapKeys(entries, e.key);
    var m' := m[e.key := FieldOf(e, |m|)];
    assert m'.Keys == m.Keys;
    assert |m'| == |m|;
    assert FieldMap(entries + [e]) == m';
  }

  // ---------------------------------------------------------------------------
  // What a read document looks like
  // ---------------------------------------------------------------------------

  predicate EntryOk(e: Entry) {
    && Trimmed(e.key) && e.key != [] && '=' !in e.key && '\n' !in e.key
    && e.key[0] != '#' && e.key[0] != ';' && e.key[0] != '['
    && Trimmed(e.value) && '\n' !in e.value
    && CommentOk(e.comment)
  }

  predicate SectionOk(s: Section) {
    && Trimmed(s.name) && ']' !in s.name && '\n' !in s.name
    && CommentOk(s.comment)
    && forall i :: 0 <= i < |s.entries| ==> EntryOk(s.entries[i])
  }

  predicate DocumentOk(doc: Document) { forall i :: 0 <= i < |doc| ==> SectionOk(doc[i]) }

  lemma CommentGrows(c: text, t: text)
    requires CommentOk(c) && Trimmed(t) && '\n' !in t && t != [] && (t[0] == '#' || t[0] == ';')
    ensures CommentOk(c + t) && CommentOk(c + "\n")
  {
    var g, h := c + t, c + "\n";
    forall i | 0 <= i < |g| && g[i] != '\n'
      ensures StartsText(g, i) ==> g[i] == '#' || g[i] == ';'
      ensures EndsText(g, i) ==> !Blank(g[i])
    {
      if i < |c| {
        assert g[i] == c[i];
        if i > 0 { assert g[i - 1] == c[i - 1]; }
        if i + 1 < |c| { assert g[i + 1] == c[i + 1]; }
        assert StartsText(g, i) ==> StartsText(c, i);
        assert EndsText(g, i) ==> EndsText(c, i) by {
          if i == |c| - 1 { assert g[i + 1] == t[0]; }
        }
      } else {
        var j := i - |c|;
        assert g[i] == t[j];
        if j > 0 { assert g[i - 1] == t[j - 1] && t[j - 1] in t; }
        if j + 1 < |t| { assert g[i + 1] == t[j + 1] && t[j + 1] in t; }
      }
    }
    forall i | 0 <= i < |h| && h[i] != '\n'
      ensures StartsText(h, i) ==> h[i] == '#' || h[i] == ';'
      ensures EndsText(h, i) ==> !Blank(h[i])
    {
      assert h[i] == c[i];
      if i > 0 { assert h[i - 1] == c[i - 1]; }
      if i + 1 < |c| { assert h[i + 1] == c[i + 1]; }
    }
  }

  lemma NoComment()
    ensures CommentOk([])
  {
  }

  lemma AddSectionOk(doc: Document, s: Section)
    requires DocumentOk(doc) && SectionOk(s)
    ensures DocumentOk(doc + [s])
  {
    hide SectionOk;
  }

  lemma AddEntryOk(doc: Document, e: Entry)
    requires DocumentOk(doc) && doc != [] && EntryOk(e)
    ensures DocumentOk(AddEntry(doc, e))
  {
    hide EntryOk, CommentOk;
    var n := |doc| - 1;
    var last := doc[n].(entries := doc[n].entries + [e]);
    assert SectionOk(doc[n]);
    assert SectionOk(last);
    hide SectionOk;
  }

  lemma StepDocumentOk(d: Draft, line: text)
    requires DocumentOk(d.doc) && CommentOk(d.comment) && '\n' !in line
    ensures DocumentOk(DraftStep(d, line).doc) && CommentOk(DraftStep(d, line).comment)
  {
    hide Trim, Index, CommentOk, DocumentOk, AddEntry;
    var t := Trim(line);
    TrimTrims(line);
    NoComment();
    if t == [] {
      CommentGrows(d.comment, "#");
    } else if t[0] == ';' || t[0] == '#' {
      CommentGrows(d.comment, t);
    } else if t[0] == '[' {
      var right := Index(t, ']');
      if right != -1 {
        NameOk(t, right);
        AddSectionOk(d.doc, Section(Trim(t[1..right]), d.comment, []));
      }
    } else {
      var sep := Index(t, '=');
      if sep > 0 && d.doc != [] {
        KeyOk(t, sep);
        AddEntryOk(d.doc, Entry(Trim(t[..sep]), Trim(t[sep + 1..]), d.comment));
      }
    }
  }

  lemma NameOk(t: text, right: nat)
    requires right < |t| && '\n' !in t && ']' !in t[..right] && 1 <= right
    ensures var name := Trim(t[1..right]); Trimmed(name) && ']' !in name && '\n' !in name
  {
    TrimTrims(t[1..right]);
    assert forall c :: c in t[1..right] ==> c in t[..right];
  }

  lemma KeyOk(t: text, sep: nat)
    requires sep < |t| && 0 < sep && '\n' !in t && '=' !in t[..sep] && Trimmed(t)
    ensures var key, value := Trim(t[..sep]), Trim(t[sep + 1..]);
            && Trimmed(key) && key != [] && key[0] == t[0] && '=' !in key && '\n' !in key
            && Trimmed(value) && '\n' !in value
  {
    TrimTrims(t[..sep]);
    TrimTrims(t[sep + 1..]);
    TrimLeftTrims(t[..sep]);
    TrimRightTrims(t[..sep]);
    assert t[..sep][0] == t[0];
    TrimRightKeeps(t[..sep], t[0]);
  }

  lemma {:induction false} LinesClean(data: text)
    ensures forall l :: l in Lines(data) ==> '\n' !in l
    decreases |data|
  {
    if data != [] && Index(data, '\n') != -1 {
      LinesClean(data[Index(data, '\n') + 1..]);
    }
  }

  lemma {:induction false} ReadDocumentOk(d: Draft, lines: seq<text>)
    requires DocumentOk(d.doc) && CommentOk(d.comment) && forall l :: l in lines ==> '\n' !in l
    ensures DocumentOk(DraftAll(d, lines).doc)
    decreases |lines|
  {
    hide DocumentOk, CommentOk, DraftStep;
    if lines != [] {
      assert lines[0] in lines;
      StepDocumentOk(d, lines[0]);
      ReadDocumentOk(DraftStep(d, lines[0]), lines[1..]);
    }
  }
}
