/** What the printer prints: the sections and fields of the maps, laid out in the order of
    their indices, as a document. */
module ConfigLayouts {
  import opened ConfigText
  import opened ConfigComments
  import opened NetworkConfigs
  import opened ConfigRoundTrip
  import opened ConfigReprint

  function EntryFrom(f: Field): Entry { Entry(f.key, f.value, f.comment) }

  ghost function EntriesFrom(fields: map<text, Field>, keys: seq<text>): seq<Entry>
    requires KeysWithin(fields, keys)
  {
    seq(|keys|, j requires 0 <= j < |keys| => EntryAt(fields, keys, j))
  }

  ghost function EntryAt(fields: map<text, Field>, keys: seq<text>, j: nat): Entry
    requires KeysWithin(fields, keys) && j < |keys|
  {
    assert keys[j] in keys;
    EntryFrom(fields[keys[j]])
  }

  ghost function SectionFrom(bag: Bag, keys: seq<text>): Section
    requires KeysWithin(bag.fields, keys)
  {
    Section(bag.name, bag.comment, EntriesFrom(bag.fields, keys))
  }

  ghost function SectionAt(sections: Sections, layout: Layout, i: nat): Section
    requires Lays(sections, layout) && i < |layout.names|
  {
    var name := layout.names[i];
    LaidWithin(sections, layout, i);
    SectionFrom(sections[name], layout.keys[name])
  }

  lemma LaidWithin(sections: Sections, layout: Layout, i: nat)
    requires Lays(sections, layout) && i < |layout.names|
    ensures layout.names[i] in sections && layout.names[i] in layout.keys
    ensures KeysWithin(sections[layout.names[i]].fields, layout.keys[layout.names[i]])
  {
    assert layout.names[i] in layout.names;
  }

  /** The maps in the order in which they are printed. */
  ghost function Laid(sections: Sections, layout: Layout): Document
    requires Lays(sections, layout)
  {
    seq(|layout.names|, i requires 0 <= i < |layout.names| => SectionAt(sections, layout, i))
  }

  // ---------------------------------------------------------------------------
  // The printed text is the print of the laid document
  // ---------------------------------------------------------------------------

  lemma EntryTextIs(f: Field)
    ensures FieldText(f) == EntryText(EntryFrom(f))
  {
    hide CommentText;
  }

  lemma {:induction false} FieldsTextIs(fields: map<text, Field>, keys: seq<text>, k: nat)
    requires KeysWithin(fields, keys) && k <= |keys|
    ensures KeysWithin(fields, keys[..k])
    ensures FieldsText(fields, keys[..k]) == EntriesText(EntriesFrom(fields, keys)[..k])
    decreases k
  {
    hide FieldText, EntryText;
    if k > 0 {
      FieldsTextIs(fields, keys, k - 1);
      assert keys[k - 1] in keys;
      EntryTextIs(fields[keys[k - 1]]);
      EntriesStep(EntriesFrom(fields, keys), k);
      assert keys[..k][..k - 1] == keys[..k - 1];
    }
  }

  lemma BagTextIs(bag: Bag, keys: seq<text>)
    requires KeysWithin(bag.fields, keys)
    ensures BagText(bag, keys) == SectionText(SectionFrom(bag, keys))
  {
    hide CommentText, FieldsText, EntriesText;
    var entries := EntriesFrom(bag.fields, keys);
    assert keys[..|keys|] == keys && entries[..|keys|] == entries;
    FieldsTextIs(bag.fields, keys, |keys|);
    assert CommentText(bag.comment) + "[" + bag.name + "]\n" == CommentText(bag.comment) + (HeaderLine(bag.name) + "\n");
  }

  lemma {:induction false} SectionsTextIs(sections: Sections, layout: Layout, k: nat)
    requires Lays(sections, layout) && k <= |layout.names|
    ensures forall name :: name in layout.names[..k] ==> name in sections
    ensures SectionsText(sections, layout.names[..k], layout) == Print(Laid(sections, layout)[..k])
    decreases k
  {
    hide Lays, BagText, SectionText, SectionFrom;
    if k > 0 {
      SectionsTextIs(sections, layout, k - 1);
      SectionsTextNext(sections, layout, k - 1);
      LaidWithin(sections, layout, k - 1);
      BagTextIs(sections[layout.names[k - 1]], layout.keys[layout.names[k - 1]]);
      assert Laid(sections, layout)[..k][..k - 1] == Laid(sections, layout)[..k - 1];
    }
  }

  lemma PrintsLaid(sections: Sections, layout: Layout)
    requires Lays(sections, layout)
    ensures Printed(sections, layout) == Print(Laid(sections, layout))
  {
    hide Lays, Print, SectionsText;
    var names, laid := layout.names, Laid(sections, layout);
    SectionsTextIs(sections, layout, |names|);
    assert names[..|names|] == names && laid[..|names|] == laid;
  }

  // ---------------------------------------------------------------------------
  // Maps that can be read back
  // ---------------------------------------------------------------------------

  ghost predicate ReadableBag(name: text, bag: Bag) {
    && bag.name == name
    && Trimmed(name) && ']' !in name && '\n' !in name && CommentOk(bag.comment)
    && forall k :: k in bag.fields ==> bag.fields[k].key == k && EntryOk(EntryFrom(bag.fields[k]))
  }

  /** Entries carry their own names, and texts are as a reader leaves them. */
  ghost predicate Readable(sections: Sections) {
    forall name :: name in sections ==> ReadableBag(name, sections[name])
  }

  lemma SectionLaid(name: text, bag: Bag, keys: seq<text>)
    requires ReadableBag(name, bag) && Sorted(bag.fields, keys, FieldIndex)
    ensures KeysWithin(bag.fields, keys)
    ensures SectionOk(SectionFrom(bag, keys)) && DistinctKeys(SectionFrom(bag, keys).entries)
    ensures SectionFrom(bag, keys).name == name
    ensures forall j :: 0 <= j < |keys| ==> SectionFrom(bag, keys).entries[j].key == keys[j]
  {
    hide EntryOk;
    var entries := EntriesFrom(bag.fields, keys);
    forall j | 0 <= j < |keys| ensures EntryOk(entries[j]) && entries[j].key == keys[j] {
      assert keys[j] in keys;
    }
  }

  /** A laid document has distinct names and keys and can be printed and read. */
  lemma LaidIsRead(sections: Sections, layout: Layout)
    requires Readable(sections) && Lays(sections, layout)
    ensures DocumentOk(Laid(sections, layout)) && Distinct(Laid(sections, layout))
    ensures |Laid(sections, layout)| == |layout.names|
    ensures forall i :: 0 <= i < |layout.names| ==>
              Laid(sections, layout)[i].name == layout.names[i] && layout.names[i] in sections
  {
    hide ReadableBag, SectionOk, DistinctKeys, Sorted, SectionFrom;
    assert Enumerates(sections, layout.names) by { SortedEnumerates(sections, layout.names, BagIndex); }
    forall i | 0 <= i < |layout.names|
      ensures layout.names[i] in sections && Laid(sections, layout)[i].name == layout.names[i]
      ensures SectionOk(Laid(sections, layout)[i]) && DistinctKeys(Laid(sections, layout)[i].entries)
    {
      LaidWithin(sections, layout, i);
      var name := layout.names[i];
      SectionLaid(name, sections[name], layout.keys[name]);
    }
  }

  lemma SortedEnumerates<T>(m: map<text, T>, keys: seq<text>, index: T -> nat)
    requires Sorted(m, keys, index)
    ensures Enumerates(m, keys)
  {
  }

  /** Different orders print differently. */
  lemma LaidDetermines(sections: Sections, layout: Layout, layout': Layout)
    requires Readable(sections) && Lays(sections, layout) && Lays(sections, layout')
    requires Names(Laid(sections, layout)) == Names(Laid(sections, layout'))
    requires forall i :: 0 <= i < |layout.names| && i < |layout'.names| ==>
               Keys(Laid(sections, layout)[i].entries) == Keys(Laid(sections, layout')[i].entries)
    ensures layout == layout'
  {
    hide Readable, ReadableBag, Sorted, SectionFrom, Lays;
    var laid, laid' := Laid(sections, layout), Laid(sections, layout');
    LaidIsRead(sections, layout);
    LaidIsRead(sections, layout');
    assert |laid| == |Names(laid)| && |laid'| == |Names(laid')|;
    forall i | 0 <= i < |layout.names| ensures layout.names[i] == layout'.names[i] {
      assert Names(laid)[i] == laid[i].name && Names(laid')[i] == laid'[i].name;
    }
    assert layout.names == layout'.names;
    LaysParts(sections, layout);
    LaysParts(sections, layout');
    forall name | name in sections ensures layout.keys[name] == layout'.keys[name] {
      var i := NameAt(sections, layout, name);
      LaidKeys(sections, layout, i);
      LaidKeys(sections, layout', i);
    }
    assert layout.keys == layout'.keys;
  }

  lemma LaysParts(sections: Sections, layout: Layout)
    requires Lays(sections, layout)
    ensures layout.keys.Keys == sections.Keys
  {
  }

  lemma NameAt(sections: Sections, layout: Layout, name: text) returns (i: nat)
    requires Lays(sections, layout) && name in sections
    ensures i < |layout.names| && layout.names[i] == name
  {
    assert name in layout.names;
    i :| 0 <= i < |layout.names| && layout.names[i] == name;
  }

  lemma LaidKeys(sections: Sections, layout: Layout, i: nat)
    requires Readable(sections) && Lays(sections, layout) && i < |layout.names|
    ensures layout.names[i] in layout.keys
    ensures Keys(Laid(sections, layout)[i].entries) == layout.keys[layout.names[i]]
  {
    hide ReadableBag, Sorted, SectionFrom;
    LaidWithin(sections, layout, i);
    var name := layout.names[i];
    SectionLaid(name, sections[name], layout.keys[name]);
    EntriesCount(sections[name], layout.keys[name]);
  }

  lemma EntriesCount(bag: Bag, keys: seq<text>)
    requires KeysWithin(bag.fields, keys)
    ensures |SectionFrom(bag, keys).entries| == |keys|
  {
  }

  // ---------------------------------------------------------------------------
  // The maps of a document
  // ---------------------------------------------------------------------------

  function Keys(entries: seq<Entry>): seq<text> {
    seq(|entries|, i requires 0 <= i < |entries| => entries[i].key)
  }

  function Names(doc: Document): seq<text> {
    seq(|doc|, i requires 0 <= i < |doc| => doc[i].name)
  }

  /** Every field of a section comes from an assignment to its key. */
  lemma {:induction false} FieldFrom(entries: seq<Entry>, k: text)
    requires k in FieldMap(entries)
    ensures exists j :: 0 <= j < |entries| && entries[j].key == k && EntryFrom(FieldMap(entries)[k]) == entries[j]
  {
    var n := |entries| - 1;
    if entries[n].key != k {
      FieldFrom(entries[..n], k);
      var j :| 0 <= j < n && entries[..n][j].key == k && EntryFrom(FieldMap(entries[..n])[k]) == entries[..n][j];
      assert entries[..n][j] == entries[j];
    }
  }

  lemma BagReadable(s: Section, i: nat)
    requires SectionOk(s)
    ensures ReadableBag(s.name, BagOf(s, i))
  {
    hide EntryOk, FieldMap;
    forall k | k in FieldMap(s.entries)
      ensures FieldMap(s.entries)[k].key == k && EntryOk(EntryFrom(FieldMap(s.entries)[k]))
    {
      FieldFrom(s.entries, k);
    }
  }

  /** Whatever is read can be printed and read back. */
  lemma DocumentReadable(doc: Document)
    requires DocumentOk(doc) && DistinctNames(doc)
    ensures Readable(SectionMap(doc))
  {
    hide SectionOk, ReadableBag, BagOf, SectionMap;
    SectionMapExact(doc);
    forall name | name in SectionMap(doc) ensures ReadableBag(name, SectionMap(doc)[name]) {
      SectionMapKeys(doc, name);
      var i :| 0 <= i < |doc| && doc[i].name == name;
      assert SectionMap(doc)[doc[i].name] == BagOf(doc[i], i);
      BagReadable(doc[i], i);
    }
  }

  lemma KeysEnumerate(entries: seq<Entry>)
    requires DistinctKeys(entries)
    ensures Enumerates(FieldMap(entries), Keys(entries))
  {
    hide FieldMap;
    forall k ensures k in Keys(entries) <==> k in FieldMap(entries) {
      FieldMapKeys(entries, k);
      if HasKey(entries, k) {
        var i :| 0 <= i < |entries| && entries[i].key == k;
        assert Keys(entries)[i] == k;
      }
    }
  }

  lemma FieldsSorted(entries: seq<Entry>)
    requires DistinctKeys(entries)
    ensures Sorted(FieldMap(entries), Keys(entries), FieldIndex)
    ensures DistinctIndices(FieldMap(entries), FieldIndex)
  {
    hide FieldMap;
    FieldMapExact(entries);
    KeysEnumerate(entries);
    var m, ks := FieldMap(entries), Keys(entries);
    forall k, k' | k in m && k' in m && FieldIndex(m[k]) == FieldIndex(m[k'])
      ensures k == k'
    {
      assert k in ks && k' in ks;
      var i :| 0 <= i < |ks| && ks[i] == k;
      var i' :| 0 <= i' < |ks| && ks[i'] == k';
      assert m[entries[i].key] == FieldOf(entries[i], i) && m[entries[i'].key] == FieldOf(entries[i'], i');
    }
  }

  lemma NamesEnumerate(doc: Document)
    requires DistinctNames(doc)
    ensures Enumerates(SectionMap(doc), Names(doc))
  {
    hide SectionMap;
    forall k ensures k in Names(doc) <==> k in SectionMap(doc) {
      SectionMapKeys(doc, k);
      if HasName(doc, k) {
        var i :| 0 <= i < |doc| && doc[i].name == k;
        assert Names(doc)[i] == k;
      }
    }
  }

  lemma SectionsSorted(doc: Document)
    requires DistinctNames(doc)
    ensures Sorted(SectionMap(doc), Names(doc), BagIndex)
    ensures DistinctIndices(SectionMap(doc), BagIndex)
  {
    hide SectionMap, FieldMap;
    SectionMapExact(doc);
    NamesEnumerate(doc);
    var m, ks := SectionMap(doc), Names(doc);
    forall k, k' | k in m && k' in m && BagIndex(m[k]) == BagIndex(m[k'])
      ensures k == k'
    {
      assert k in ks && k' in ks;
      var i :| 0 <= i < |ks| && ks[i] == k;
      var i' :| 0 <= i' < |ks| && ks[i'] == k';
      assert m[doc[i].name] == BagOf(doc[i], i) && m[doc[i'].name] == BagOf(doc[i'], i');
    }
  }

  lemma SectionBack(s: Section, i: nat, keys: seq<text>)
    requires DistinctKeys(s.entries) && Sorted(FieldMap(s.entries), keys, FieldIndex)
    ensures KeysWithin(FieldMap(s.entries), keys) && SectionFrom(BagOf(s, i), keys) == s
  {
    hide FieldMap, Sorted;
    FieldsSorted(s.entries);
    OrderUnique(FieldMap(s.entries), keys, Keys(s.entries), FieldIndex);
    SortedWithin(FieldMap(s.entries), keys);
    FieldMapExact(s.entries);
    assert EntriesFrom(FieldMap(s.entries), keys) == s.entries;
  }

  /** Without repeated keys the maps are laid out in file order, whatever order they are
      iterated in. */
  lemma LaidBack(doc: Document, layout: Layout)
    requires Distinct(doc) && Lays(SectionMap(doc), layout)
    ensures Laid(SectionMap(doc), layout) == doc
  {
    hide SectionMap, FieldMap, Sorted, SectionFrom, BagOf, DistinctIndices;
    NamesInOrder(doc, layout);
    SectionMapExact(doc);
    forall i | 0 <= i < |doc| ensures SectionAt(SectionMap(doc), layout, i) == doc[i] {
      BagFields(doc[i], i);
      SectionBack(doc[i], i, layout.keys[doc[i].name]);
    }
  }

  /** Sections are always laid out in file order. */
  lemma NamesInOrder(doc: Document, layout: Layout)
    requires DistinctNames(doc) && Lays(SectionMap(doc), layout)
    ensures layout.names == Names(doc)
  {
    hide Sorted, DistinctIndices;
    SectionsSorted(doc);
    OrderUnique(SectionMap(doc), layout.names, Names(doc), BagIndex);
  }

  lemma BagFields(s: Section, i: nat)
    ensures BagOf(s, i).fields == FieldMap(s.entries)
  {
  }
}
