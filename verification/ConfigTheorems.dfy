/** The round trip of the network configuration, on the maps the program holds. */
module ConfigTheorems {
  import opened Wrappers
  import opened ConfigText
  import opened ConfigComments
  import opened NetworkConfigs
  import opened ConfigRoundTrip
  import opened ConfigReprint
  import opened ConfigLayouts

  const EMPTY_READER := Reader(map[], None, [])
  const EMPTY_DRAFT := Draft([], [])

  function ParseText(data: text, limit: nat): Parsed { Parse(EMPTY_READER, Lines(data), 1, limit) }

  function DocumentOf(data: text): Document { DraftAll(EMPTY_DRAFT, Lines(data)).doc }

  predicate LinesFit(data: text, limit: nat) { forall l :: l in Lines(data) ==> |l| < limit }

  lemma EmptyDocument()
    ensures DistinctNames([]) && DocumentOk([]) && CommentOk([]) && ReaderOf(EMPTY_DRAFT) == EMPTY_READER
  {
  }

  // ---------------------------------------------------------------------------
  // Reading
  // ---------------------------------------------------------------------------

  /** What a successful read gives: the maps of the document in file order, in the form the
      printer can handle. */
  lemma ReadGives(data: text, limit: nat)
    requires ParseText(data, limit).error.None?
    ensures ParseText(data, limit).reader.sections == SectionMap(DocumentOf(data))
    ensures DistinctNames(DocumentOf(data)) && DocumentOk(DocumentOf(data))
    ensures Readable(SectionMap(DocumentOf(data)))
  {
    hide Lines, DocumentOk, Readable, SectionMap;
    EmptyDocument();
    ParseSucceedsExactly(EMPTY_DRAFT, Lines(data), 1, limit);
    ParseAgrees(EMPTY_DRAFT, Lines(data), 1, limit);
    LinesClean(data);
    ReadDocumentOk(EMPTY_DRAFT, Lines(data));
    DocumentReadable(DocumentOf(data));
  }

  /** For every file that is read: sections are numbered from 0 in file order; the fields of
      each are the result of its assignments in file order, and are numbered from 0 without
      gaps exactly when no key repeats, and then in file order too. */
  lemma IndicesInFileOrder(data: text, limit: nat)
    requires ParseText(data, limit).error.None?
    ensures var sections, doc := ParseText(data, limit).reader.sections, DocumentOf(data);
            && |sections| == |doc|
            && forall i :: 0 <= i < |doc| ==>
                 && doc[i].name in sections
                 && sections[doc[i].name] == Bag(doc[i].name, doc[i].comment, i, FieldMap(doc[i].entries))
                 && (Numbered(sections[doc[i].name].fields) <==> DistinctKeys(doc[i].entries))
                 && (DistinctKeys(doc[i].entries) ==>
                       && |sections[doc[i].name].fields| == |doc[i].entries|
                       && forall j :: 0 <= j < |doc[i].entries| ==>
                            && doc[i].entries[j].key in sections[doc[i].name].fields
                            && sections[doc[i].name].fields[doc[i].entries[j].key] == FieldOf(doc[i].entries[j], j))
  {
    hide ParseText, SectionMap, FieldMap, DocumentOf, Numbered, DistinctKeys;
    ReadGives(data, limit);
    var doc := DocumentOf(data);
    SectionMapExact(doc);
    forall i | 0 <= i < |doc|
      ensures Numbered(FieldMap(doc[i].entries)) <==> DistinctKeys(doc[i].entries)
      ensures DistinctKeys(doc[i].entries) ==>
                && |FieldMap(doc[i].entries)| == |doc[i].entries|
                && forall j :: 0 <= j < |doc[i].entries| ==>
                     && doc[i].entries[j].key in FieldMap(doc[i].entries)
                     && FieldMap(doc[i].entries)[doc[i].entries[j].key] == FieldOf(doc[i].entries[j], j)
    {
      NumberedExactly(doc[i].entries);
      if DistinctKeys(doc[i].entries) { FieldMapExact(doc[i].entries); }
    }
  }

  // ---------------------------------------------------------------------------
  // Printing and reading again
  // ---------------------------------------------------------------------------

  // The sections with every comment changed by `f` and everything else kept.

  function MapField(f: text -> text, field: Field): Field { field.(comment := f(field.comment)) }

  function MapBag(f: text -> text, b: Bag): Bag {
    b.(comment := f(b.comment), fields := map k | k in b.fields :: MapField(f, b.fields[k]))
  }

  function MapSections(f: text -> text, sections: Sections): Sections {
    map name | name in sections :: MapBag(f, sections[name])
  }

  function SqueezeSections(sections: Sections): Sections { MapSections(Squeeze, sections) }

  lemma {:induction false} MapFieldMap(f: text -> text, entries: seq<Entry>)
    ensures FieldMap(MapEntries(f, entries)) == map k | k in FieldMap(entries) :: MapField(f, FieldMap(entries)[k])
  {
    if entries != [] {
      var n := |entries| - 1;
      var before := FieldMap(entries[..n]);
      MapFieldMap(f, entries[..n]);
      assert MapEntries(f, entries)[..n] == MapEntries(f, entries[..n]);
      var mapped := FieldMap(MapEntries(f, entries[..n]));
      assert mapped.Keys == before.Keys;
      assert |mapped| == |before|;
    }
  }

  /** Changing the comments of a document changes those of its maps. */
  lemma {:induction false} MapSectionMap(f: text -> text, doc: Document)
    ensures SectionMap(MapDocument(f, doc)) == MapSections(f, SectionMap(doc))
  {
    hide FieldMap;
    if doc != [] {
      var n := |doc| - 1;
      MapSectionMap(f, doc[..n]);
      MapFieldMap(f, doc[n].entries);
      assert MapDocument(f, doc)[..n] == MapDocument(f, doc[..n]);
      assert BagOf(MapSection(f, doc[n]), n) == MapBag(f, BagOf(doc[n], n));
    }
  }

  /** Reading the print of a document gives its maps with squeezed comments, exactly when
      every printed line fits the reader's buffer. */
  lemma RereadGives(doc: Document, limit: nat)
    requires DocumentOk(doc) && DistinctNames(doc)
    ensures var p := ParseText(Print(doc), limit);
            && (p.error.None? <==> LinesFit(Print(doc), limit))
            && (p.error.None? ==> p.reader.sections == SectionMap(SqueezeDocument(doc)))
    ensures DocumentOf(Print(doc)) == SqueezeDocument(doc)
    ensures DocumentOk(SqueezeDocument(doc))
  {
    hide Lines, DocumentOk, Print, MapDocument, SectionMap;
    EmptyDocument();
    assert doc[..|doc|] == doc;
    ReadPrinted(doc, |doc|);
    var lines := Lines(Print(doc));
    ParseSucceedsExactly(EMPTY_DRAFT, lines, 1, limit);
    if LinesFit(Print(doc), limit) {
      ParseAgrees(EMPTY_DRAFT, lines, 1, limit);
    }
    LinesClean(Print(doc));
    ReadDocumentOk(EMPTY_DRAFT, lines);
  }

  lemma MapDistinct(f: text -> text, doc: Document)
    requires Distinct(doc)
    ensures Distinct(MapDocument(f, doc))
  {
    forall i | 0 <= i < |doc| ensures DistinctKeys(MapDocument(f, doc)[i].entries) {
      assert DistinctKeys(doc[i].entries);
    }
  }

  /** Reading what is printed for `sections` when the maps are iterated so as to sort into
      `layout`. */
  ghost function Reread(sections: Sections, layout: Layout, limit: nat): Parsed
    requires Lays(sections, layout)
  {
    ParseText(Printed(sections, layout), limit)
  }

  /** One round, for any maps a reader may hold. */
  lemma RereadLaid(sections: Sections, layout: Layout, limit: nat)
    requires Readable(sections) && Lays(sections, layout)
    ensures var doc, again := Laid(sections, layout), Reread(sections, layout, limit);
            && Printed(sections, layout) == Print(doc)
            && (again.error.None? <==> LinesFit(Print(doc), limit))
            && (again.error.None? ==> again.reader.sections == SectionMap(SqueezeDocument(doc)))
  {
    hide ParseText, Print, SectionMap, Readable, Lays, Printed, Laid, LinesFit;
    LaidIsRead(sections, layout);
    PrintsLaid(sections, layout);
    RereadGives(Laid(sections, layout), limit);
  }

  /** The same sections, keys, values and comments; only indices may differ. */
  ghost predicate SameButIndices(sections: Sections, sections': Sections) {
    && sections'.Keys == sections.Keys
    && forall name :: name in sections ==> BagsAgree(sections[name], sections'[name])
  }

  ghost predicate BagsAgree(b: Bag, b': Bag) {
    && b'.name == b.name && b'.comment == b.comment && b'.fields.Keys == b.fields.Keys
    && forall k :: k in b.fields ==> EntryFrom(b'.fields[k]) == EntryFrom(b.fields[k])
  }

  lemma MapAgrees(f: text -> text, sections: Sections, sections': Sections)
    requires SameButIndices(sections, sections')
    ensures SameButIndices(MapSections(f, sections), MapSections(f, sections'))
  {
  }

  predicate NoKeyRepeats(doc: Document) { forall i :: 0 <= i < |doc| ==> DistinctKeys(doc[i].entries) }

  lemma FieldsAgree(entries: seq<Entry>, fields: map<text, Field>, keys: seq<text>)
    requires Enumerates(fields, keys) && KeysWithin(fields, keys) && entries == EntriesFrom(fields, keys)
    requires DistinctKeys(entries) && forall j :: 0 <= j < |keys| ==> entries[j].key == keys[j]
    ensures FieldMap(entries).Keys == fields.Keys
    ensures forall k :: k in fields ==> EntryFrom(FieldMap(entries)[k]) == EntryFrom(fields[k])
  {
    hide FieldMap, DistinctKeys;
    forall k ensures k in FieldMap(entries) <==> k in fields {
      FieldMapKeys(entries, k);
      if k in fields {
        var j :| 0 <= j < |keys| && keys[j] == k;
        assert entries[j].key == k;
      }
      if HasKey(entries, k) {
        var j :| 0 <= j < |entries| && entries[j].key == k;
        assert keys[j] in keys;
      }
    }
    forall k | k in fields ensures EntryFrom(FieldMap(entries)[k]) == EntryFrom(fields[k]) {
      FieldMapKeys(entries, k);
      FieldMapExact(entries);
      var j :| 0 <= j < |entries| && entries[j].key == k;
      assert entries[j] == EntryAt(fields, keys, j);
    }
  }

  lemma BagLaid(name: text, bag: Bag, keys: seq<text>, i: nat)
    requires ReadableBag(name, bag) && Sorted(bag.fields, keys, FieldIndex)
    ensures KeysWithin(bag.fields, keys)
    ensures BagsAgree(bag, BagOf(SectionFrom(bag, keys), i))
  {
    SectionLaid(name, bag, keys);
    SortedEnumerates(bag.fields, keys, FieldIndex);
    hide FieldMap, DistinctKeys, Sorted, ReadableBag, Enumerates, SectionOk;
    FieldsAgree(EntriesFrom(bag.fields, keys), bag.fields, keys);
  }

  /** Laying the maps out changes nothing but indices. */
  lemma LaidKeepsContents(sections: Sections, layout: Layout)
    requires Readable(sections) && Lays(sections, layout)
    ensures SameButIndices(sections, SectionMap(Laid(sections, layout)))
  {
    hide ReadableBag, BagOf, SectionFrom, Sorted, BagsAgree, DocumentOk, SectionMap;
    LaidIsRead(sections, layout);
    var doc := Laid(sections, layout);
    SectionMapExact(doc);
    forall name ensures name in SectionMap(doc) <==> name in sections {
      SectionMapKeys(doc, name);
      if name in sections {
        var i := NameAt(sections, layout, name);
        assert doc[i].name == name;
      }
      if HasName(doc, name) { var i :| 0 <= i < |doc| && doc[i].name == name; }
    }
    forall name | name in sections ensures BagsAgree(sections[name], SectionMap(doc)[name]) {
      var i := NameAt(sections, layout, name);
      assert SectionMap(doc)[doc[i].name] == BagOf(doc[i], i);
      BagLaid(name, sections[name], layout.keys[name], i);
    }
  }

  /** A gapless numbering of fields does not depend on their comments. */
  lemma NumberedMapped(f: text -> text, m: map<text, Field>)
    requires Numbered(map k | k in m :: MapField(f, m[k]))
    ensures Numbered(m)
  {
    var mapped := map k | k in m :: MapField(f, m[k]);
    assert mapped.Keys == m.Keys;
    assert |mapped| == |m|;
    forall i: nat ensures !Gap(m, i) {
      assert !Gap(mapped, i);
      if i < |m| {
        var k :| k in mapped && mapped[k].index == i;
        assert m[k].index == i;
      }
    }
  }

  /** A round keeps the indices as well exactly when no key was set twice. */
  lemma LaidKeepsIndices(doc: Document, layout: Layout)
    requires DocumentOk(doc) && DistinctNames(doc) && Lays(SectionMap(doc), layout)
    ensures SectionMap(SqueezeDocument(Laid(SectionMap(doc), layout))) == SqueezeSections(SectionMap(doc))
            <==> NoKeyRepeats(doc)
  {
    hide SectionMap, MapSections, MapDocument, Laid, DocumentOk, Readable, FieldMap, DistinctKeys, Lays;
    var sections := SectionMap(doc);
    var laid := Laid(sections, layout);
    if NoKeyRepeats(doc) {
      LaidBack(doc, layout);
      MapSectionMap(Squeeze, doc);
    } else if SectionMap(SqueezeDocument(laid)) == SqueezeSections(sections) {
      DocumentReadable(doc);
      LaidIsRead(sections, layout);
      var i :| 0 <= i < |doc| && !DistinctKeys(doc[i].entries);
      NumberedIfKept(doc, layout, i);
      NumberedExactly(doc[i].entries);
      assert false;
    }
  }

  lemma NumberedIfKept(doc: Document, layout: Layout, i: nat)
    requires DistinctNames(doc) && Lays(SectionMap(doc), layout) && i < |doc|
    requires Distinct(Laid(SectionMap(doc), layout))
    requires SectionMap(SqueezeDocument(Laid(SectionMap(doc), layout))) == SqueezeSections(SectionMap(doc))
    ensures Numbered(FieldMap(doc[i].entries))
  {
    hide Squeeze, FieldMap, SectionMap, Numbered, DistinctKeys, Laid, Lays, MapDocument;
    var sections := SectionMap(doc);
    var name := doc[i].name;
    SectionMapExact(doc);
    assert sections[name] == BagOf(doc[i], i);
    assert name in SqueezeSections(sections) && SqueezeSections(sections)[name] == MapBag(Squeeze, sections[name]);
    MapDistinct(Squeeze, Laid(sections, layout));
    var squeezed := SqueezeDocument(Laid(sections, layout));
    SectionMapKeys(squeezed, name);
    var p :| 0 <= p < |squeezed| && squeezed[p].name == name;
    SectionMapExact(squeezed);
    assert SectionMap(squeezed)[squeezed[p].name] == BagOf(squeezed[p], p);
    NumberedExactly(squeezed[p].entries);
    assert FieldMap(squeezed[p].entries) == MapBag(Squeeze, sections[name]).fields;
    NumberedMapped(Squeeze, FieldMap(doc[i].entries));
  }

  /** For every configuration that is read, and every order in which its maps are iterated:
      the printed text is read back exactly when its lines fit the reader's buffer; then it
      gives the same sections, keys and values, with squeezed comments; and the same indices
      exactly when no key was set twice in a section. */
  lemma RoundTrip(data: text, limit: nat, layout: Layout)
    requires ParseText(data, limit).error.None?
    requires Lays(ParseText(data, limit).reader.sections, layout)
    ensures var sections := ParseText(data, limit).reader.sections;
            var again := Reread(sections, layout, limit);
            && (again.error.None? <==> LinesFit(Printed(sections, layout), limit))
            && (again.error.None? ==>
                  && SameButIndices(SqueezeSections(sections), again.reader.sections)
                  && (again.reader.sections == SqueezeSections(sections) <==> NoKeyRepeats(DocumentOf(data))))
  {
    hide ParseText, Lays, Printed, MapSections, SectionMap, LinesFit, Laid, MapDocument, Readable, DocumentOk,
      NoKeyRepeats, SameButIndices, DocumentOf, Reread;
    ReadGives(data, limit);
    var sections := ParseText(data, limit).reader.sections;
    RereadLaid(sections, layout, limit);
    LaidKeepsContents(sections, layout);
    MapSectionMap(Squeeze, Laid(sections, layout));
    MapAgrees(Squeeze, sections, SectionMap(Laid(sections, layout)));
    LaidKeepsIndices(DocumentOf(data), layout);
  }

  // ---------------------------------------------------------------------------
  // When the printed text is unique
  // ---------------------------------------------------------------------------

  /** Two orders print the same text only if they are the same order. */
  lemma PrintDetermines(sections: Sections, layout: Layout, layout': Layout)
    requires Readable(sections) && Lays(sections, layout) && Lays(sections, layout')
    ensures Printed(sections, layout) == Printed(sections, layout')
            <==> layout == layout'
  {
    hide Readable, Lays, Printed, Laid, MapDocument, Print, DocumentOk;
    if Printed(sections, layout) == Printed(sections, layout') {
      var laid, laid' := Laid(sections, layout), Laid(sections, layout');
      PrintsLaid(sections, layout);
      PrintsLaid(sections, layout');
      LaidIsRead(sections, layout);
      LaidIsRead(sections, layout');
      RereadGives(laid, 0);
      RereadGives(laid', 0);
      SqueezeNames(laid, laid');
      LaidDetermines(sections, layout, layout');
    }
  }

  lemma SqueezeNames(doc: Document, doc': Document)
    requires SqueezeDocument(doc) == SqueezeDocument(doc')
    ensures Names(doc) == Names(doc')
    ensures forall i :: 0 <= i < |doc| && i < |doc'| ==> Keys(doc[i].entries) == Keys(doc'[i].entries)
  {
    hide Squeeze;
    assert |doc| == |SqueezeDocument(doc)| == |doc'|;
    forall i | 0 <= i < |doc| ensures doc[i].name == doc'[i].name && Keys(doc[i].entries) == Keys(doc'[i].entries) {
      assert SqueezeDocument(doc)[i] == SqueezeDocument(doc')[i];
      SqueezeKeys(doc[i].entries, doc'[i].entries);
    }
  }

  lemma SqueezeKeys(entries: seq<Entry>, entries': seq<Entry>)
    requires SqueezeEntries(entries) == SqueezeEntries(entries')
    ensures Keys(entries) == Keys(entries')
  {
    hide Squeeze;
    assert |entries| == |SqueezeEntries(entries)| == |entries'|;
    forall i | 0 <= i < |entries| ensures entries[i].key == entries'[i].key {
      assert SqueezeEntries(entries)[i] == SqueezeEntries(entries')[i];
    }
  }

  /** Two entries with one index can change places. */
  lemma SwapSorted<T>(m: map<text, T>, keys: seq<text>, index: T -> nat) returns (keys': seq<text>)
    requires Sorted(m, keys, index) && !DistinctIndices(m, index)
    ensures Sorted(m, keys', index) && keys' != keys
  {
    var k, k' :| k in m && k' in m && index(m[k]) == index(m[k']) && k != k';
    assert k in keys && k' in keys;
    var p :| 0 <= p < |keys| && keys[p] == k;
    var q :| 0 <= q < |keys| && keys[q] == k';
    if p > q { p, q := q, p; }
    keys' := keys[p := keys[q]][q := keys[p]];
    SwapEnumerates(m, keys, p, q);
    SwapOrdered(m, keys, index, p, q);
    assert keys'[p] != keys[p];
  }

  lemma SwapEnumerates<T>(m: map<text, T>, keys: seq<text>, p: nat, q: nat)
    requires Enumerates(m, keys) && p < q < |keys|
    ensures Enumerates(m, keys[p := keys[q]][q := keys[p]])
  {
    var keys' := keys[p := keys[q]][q := keys[p]];
    forall k ensures k in keys' <==> k in keys {
      if k in keys {
        var i :| 0 <= i < |keys| && keys[i] == k;
        assert keys'[if i == p then q else if i == q then p else i] == k;
      }
    }
  }

  lemma SwapOrdered<T>(m: map<text, T>, keys: seq<text>, index: T -> nat, p: nat, q: nat)
    requires Sorted(m, keys, index) && p < q < |keys|
    requires keys[p] in m && keys[q] in m && index(m[keys[p]]) == index(m[keys[q]])
    ensures var keys' := keys[p := keys[q]][q := keys[p]];
            (forall k :: k in keys' ==> k in m) && Ordered(m, keys', index)
  {
    var keys' := keys[p := keys[q]][q := keys[p]];
    assert Ordered(m, keys, index);
    forall i, j | 0 <= i < j < |keys'|
      ensures keys'[i] in m && keys'[j] in m && index(m[keys'[i]]) <= index(m[keys'[j]])
    {
      SwapOrderedAt(m, keys, index, p, q, i, j);
    }
    forall k | k in keys' ensures k in m {
      var i :| 0 <= i < |keys'| && keys'[i] == k;
      assert keys[i] in keys;
    }
    hide Enumerates, Ordered;
    OrderedBy(m, keys', index);
  }

  lemma SwapOrderedAt<T>(m: map<text, T>, keys: seq<text>, index: T -> nat, p: nat, q: nat, i: nat, j: nat)
    requires (forall k :: k in keys ==> k in m) && Ordered(m, keys, index)
    requires p < q < |keys| && i < j < |keys|
    requires keys[p] in m && keys[q] in m && index(m[keys[p]]) == index(m[keys[q]])
    ensures var keys' := keys[p := keys[q]][q := keys[p]];
            keys'[i] in m && keys'[j] in m && index(m[keys'[i]]) <= index(m[keys'[j]])
  {
    OrderedAt(m, keys, index, i, j);
    hide Ordered;
  }

  lemma OrderedAt<T>(m: map<text, T>, keys: seq<text>, index: T -> nat, i: nat, j: nat)
    requires (forall k :: k in keys ==> k in m) && Ordered(m, keys, index) && i < j < |keys|
    ensures keys[i] in m && keys[j] in m && index(m[keys[i]]) <= index(m[keys[j]])
  {
    assert keys[i] in keys && keys[j] in keys;
  }

  lemma OtherLayout(sections: Sections, layout: Layout) returns (layout': Layout)
    requires Lays(sections, layout) && !AllDistinctIndices(sections)
    ensures Lays(sections, layout') && layout' != layout
  {
    hide Sorted, DistinctIndices;
    if !DistinctIndices(sections, BagIndex) {
      var names := SwapSorted(sections, layout.names, BagIndex);
      layout' := Layout(names, layout.keys);
    } else {
      var name :| name in sections && !DistinctIndices(sections[name].fields, FieldIndex);
      assert name in layout.keys;
      var keys := SwapSorted(sections[name].fields, layout.keys[name], FieldIndex);
      layout' := Layout(layout.names, layout.keys[name := keys]);
      assert layout'.keys[name] != layout.keys[name];
    }
  }

  /** The printed text is the same for every order in which the maps are iterated exactly
      when no two entries of a map share an index. */
  lemma PrintUniqueExactly(sections: Sections, layout: Layout)
    requires Readable(sections) && Lays(sections, layout)
    ensures AllDistinctIndices(sections) <==>
            forall layout' :: Lays(sections, layout') ==>
              Printed(sections, layout') == Printed(sections, layout)
  {
    hide Readable, Lays, Printed;
    if AllDistinctIndices(sections) {
      hide AllDistinctIndices;
      forall layout' | Lays(sections, layout')
        ensures Printed(sections, layout') == Printed(sections, layout)
      {
        LayoutUnique(sections, layout, layout');
      }
    } else {
      var layout' := OtherLayout(sections, layout);
      PrintDetermines(sections, layout, layout');
    }
  }
}
