/** The network configuration: a line-based reader that fills sections and fields, and a
    printer that sorts them back by their indices. */
module NetworkConfigs {
  import opened Wrappers
  import opened ConfigText
  import opened ConfigComments

  datatype Field = Field(key: text, value: text, comment: text, index: nat)
  datatype Bag = Bag(name: text, comment: text, index: nat, fields: map<text, Field>)

  type Sections = map<text, Bag>

  function BagIndex(b: Bag): nat { b.index }

  function FieldIndex(f: Field): nat { f.index }

  datatype Error =
    | LineTooLong(line: nat)
    | WrongHeader(line: nat)
    | DuplicateSection(line: nat, name: text)
    | NoSeparator(line: nat)
    | EmptyKey(line: nat)
    | NoSection(line: nat)

  // ---------------------------------------------------------------------------
  // Reading
  // ---------------------------------------------------------------------------

  /** The reader between lines: the sections so far, the name of the open one and the
      comment gathered since the last header or field. */
  datatype Reader = Reader(sections: Sections, current: Option<text>, comment: text)

  datatype Parsed = Parsed(reader: Reader, error: Option<Error>)

  /** Effect of line number `n`. */
  function Step(r: Reader, line: text, n: nat): Result<Reader, Error> {
    var t := Trim(line);
    if t == [] then Success(r.(comment := r.comment + "\n"))
    else if t[0] == ';' || t[0] == '#' then Success(r.(comment := r.comment + t))
    else if t[0] == '[' then HeaderStep(r, t, n)
    else FieldStep(r, t, n)
  }

  function HeaderStep(r: Reader, t: text, n: nat): Result<Reader, Error>
    requires t != [] && t[0] == '['
  {
    var right := Index(t, ']');
    if right == -1 then Failure(WrongHeader(n))
    else
      var name := Trim(t[1..right]);
      if name in r.sections then Failure(DuplicateSection(n, name))
      else Success(Reader(r.sections[name := Bag(name, r.comment, |r.sections|, map[])], Some(name), []))
  }

  function FieldStep(r: Reader, t: text, n: nat): Result<Reader, Error> {
    var sep := Index(t, '=');
    if sep == -1 then Failure(NoSeparator(n))
    else if sep == 0 then Failure(EmptyKey(n))
    else if r.current.None? || r.current.value !in r.sections then Failure(NoSection(n))
    else
      var bag := r.sections[r.current.value];
      var field := Field(Trim(t[..sep]), Trim(t[sep + 1..]), r.comment, |bag.fields|);
      Success(Reader(r.sections[r.current.value := bag.(fields := bag.fields[field.key := field])], r.current, []))
  }

  /** Reads lines until one fails; a line that fills the reader's buffer fails. */
  function Parse(r: Reader, lines: seq<text>, n: nat, limit: nat): Parsed
    decreases |lines|
  {
    if lines == [] then Parsed(r, None)
    else if |lines[0]| >= limit then Parsed(r, Some(LineTooLong(n)))
    else
      match Step(r, lines[0], n)
      case Failure(e) => Parsed(r, Some(e))
      case Success(r') => Parse(r', lines[1..], n + 1, limit)
  }

  // ---------------------------------------------------------------------------
  // Printing
  // ---------------------------------------------------------------------------

  function FieldText(f: Field): text { CommentText(f.comment) + f.key + " = " + f.value + "\n" }

  function FieldsText(fields: map<text, Field>, keys: seq<text>): text
    requires KeysWithin(fields, keys)
  {
    if keys == [] then []
    else FieldsText(fields, keys[..|keys| - 1]) + FieldText(fields[keys[|keys| - 1]])
  }

  function HeaderText(name: text, comment: text): text { CommentText(comment) + "[" + name + "]\n" }

  ghost predicate KeysWithin(fields: map<text, Field>, keys: seq<text>) {
    forall k :: k in keys ==> k in fields
  }

  function BagText(bag: Bag, keys: seq<text>): text
    requires KeysWithin(bag.fields, keys)
  {
    HeaderText(bag.name, bag.comment) + FieldsText(bag.fields, keys)
  }

  // The entries of a map, each once, in the order of their indices.

  ghost predicate Enumerates<T>(m: map<text, T>, keys: seq<text>) {
    && (forall k :: k in keys <==> k in m)
    && (forall i, j :: 0 <= i < j < |keys| ==> keys[i] != keys[j])
  }

  ghost predicate Ordered<T>(m: map<text, T>, keys: seq<text>, index: T -> nat)
    requires forall k :: k in keys ==> k in m
  {
    forall i, j :: 0 <= i < j < |keys| ==> index(m[keys[i]]) <= index(m[keys[j]])
  }

  ghost predicate Sorted<T>(m: map<text, T>, keys: seq<text>, index: T -> nat) {
    Enumerates(m, keys) && Ordered(m, keys, index)
  }

  ghost predicate DistinctIndices<T>(m: map<text, T>, index: T -> nat) {
    forall k, k' :: k in m && k' in m && index(m[k]) == index(m[k']) ==> k == k'
  }

  /** An order for the sections, and one for the fields of each. */
  datatype Layout = Layout(names: seq<text>, keys: map<text, seq<text>>)

  ghost predicate Lays(sections: Sections, layout: Layout) {
    && Sorted(sections, layout.names, BagIndex)
    && layout.keys.Keys == sections.Keys
    && forall name :: name in sections ==> Sorted(sections[name].fields, layout.keys[name], FieldIndex)
  }

  /** The printed text of the sections in `names`. */
  ghost function SectionsText(sections: Sections, names: seq<text>, layout: Layout): text
    requires Lays(sections, layout) && forall name :: name in names ==> name in sections
  {
    if names == [] then []
    else
      var name := names[|names| - 1];
      SectionsText(sections, names[..|names| - 1], layout) + BagText(sections[name], layout.keys[name])
  }

  /** The printed text when the maps are iterated so as to sort into `layout`. */
  ghost function Printed(sections: Sections, layout: Layout): text
    requires Lays(sections, layout)
  {
    SectionsText(sections, layout.names, layout)
  }

  /** With distinct indices there is only one order. */
  lemma {:induction false} OrderUnique<T>(m: map<text, T>, keys: seq<text>, keys': seq<text>, index: T -> nat)
    requires Sorted(m, keys, index) && Sorted(m, keys', index) && DistinctIndices(m, index)
    ensures keys == keys'
    decreases |keys|
  {
    assert keys' != [] ==> keys'[0] in keys';
    if keys != [] {
      assert keys[0] in m && keys[0] in keys';
      var k, k' := keys[0], keys'[0];
      assert k' in keys;
      var i :| 0 <= i < |keys'| && keys'[i] == k;
      var j :| 0 <= j < |keys| && keys[j] == k';
      assert index(m[k]) <= index(m[k']) && index(m[k']) <= index(m[k]);
      assert k == k';
      var rest := m - {k};
      SortedTail(m, keys, index);
      SortedTail(m, keys', index);
      OrderUnique(rest, keys[1..], keys'[1..], index);
    }
  }

  lemma SortedTail<T>(m: map<text, T>, keys: seq<text>, index: T -> nat)
    requires Sorted(m, keys, index) && keys != []
    ensures Sorted(m - {keys[0]}, keys[1..], index)
  {
    var rest, tail := m - {keys[0]}, keys[1..];
    forall k ensures k in tail <==> k in rest {
      if k in rest {
        assert k in keys;
        var i :| 0 <= i < |keys| && keys[i] == k;
        assert tail[i - 1] == k;
      }
      if k in tail {
        var i :| 0 <= i < |tail| && tail[i] == k;
        assert keys[i + 1] == k;
      }
    }
  }

  ghost predicate AllDistinctIndices(sections: Sections) {
    && DistinctIndices(sections, BagIndex)
    && forall name :: name in sections ==> DistinctIndices(sections[name].fields, FieldIndex)
  }

  /** With distinct indices the printed order does not depend on the order in which the maps
      are iterated. */
  lemma LayoutUnique(sections: Sections, layout: Layout, layout': Layout)
    requires Lays(sections, layout) && Lays(sections, layout') && AllDistinctIndices(sections)
    ensures layout == layout'
  {
    hide Sorted, DistinctIndices;
    OrderUnique(sections, layout.names, layout'.names, BagIndex);
    forall name | name in sections
      ensures layout.keys[name] == layout'.keys[name]
    {
      OrderUnique(sections[name].fields, layout.keys[name], layout'.keys[name], FieldIndex);
    }
    assert layout.keys == layout'.keys;
  }

  /** Lists the keys of a map in whatever order the runtime iterates it. */
  method Iterate<T>(m: map<text, T>) returns (keys: seq<text>)
    ensures Enumerates(m, keys)
  {
    keys := [];
    var left := m.Keys;
    while left != {}
      invariant left <= m.Keys
      invariant forall k :: k in keys <==> k in m.Keys - left
      invariant forall i, j :: 0 <= i < j < |keys| ==> keys[i] != keys[j]
      decreases |left|
    {
      var k :| k in left;
      assert k !in keys;
      left := left - {k};
      keys := keys + [k];
    }
  }

  /** Sorts by index; entries with equal indices come in any order. */
  method SortByIndex<T>(m: map<text, T>, order: seq<text>, index: T -> nat) returns (keys: seq<text>)
    requires Enumerates(m, order)
    ensures Sorted(m, keys, index)
  {
    keys := [];
    var i := 0;
    while i < |order|
      invariant 0 <= i <= |order|
      invariant forall k :: k in keys <==> k in order[..i]
      invariant forall k :: k in keys ==> k in m
      invariant forall a, b :: 0 <= a < b < |keys| ==> keys[a] != keys[b]
      invariant Ordered(m, keys, index)
    {
      var k := order[i];
      assert k in order && k !in order[..i];
      var at := 0;
      while at < |keys| && index(m[keys[at]]) <= index(m[k])
        invariant 0 <= at <= |keys|
        invariant forall a :: 0 <= a < at ==> index(m[keys[a]]) <= index(m[k])
      {
        at := at + 1;
      }
      InsertOrdered(m, keys, at, k, index);
      keys := keys[..at] + [k] + keys[at..];
      i := i + 1;
    }
    assert order[..i] == order;
  }

  lemma InsertOrdered<T>(m: map<text, T>, keys: seq<text>, at: nat, k: text, index: T -> nat)
    requires (forall k :: k in keys ==> k in m) && k in m && at <= |keys| && k !in keys
    requires Ordered(m, keys, index)
    requires forall a, b :: 0 <= a < b < |keys| ==> keys[a] != keys[b]
    requires forall a :: 0 <= a < at ==> index(m[keys[a]]) <= index(m[k])
    requires at < |keys| ==> index(m[k]) < index(m[keys[at]])
    ensures var inserted := keys[..at] + [k] + keys[at..];
            && (forall x :: x in inserted <==> x in keys || x == k)
            && (forall a, b :: 0 <= a < b < |inserted| ==> inserted[a] != inserted[b])
            && Ordered(m, inserted, index)
  {
    InsertedIs(keys, at, k);
    InsertedMembers(keys, at, k);
    var inserted := keys[..at] + [k] + keys[at..];
    hide Inserted, Ordered;
    forall a, b | 0 <= a < b < |inserted|
      ensures inserted[a] in m && inserted[b] in m
      ensures inserted[a] != inserted[b] && index(m[inserted[a]]) <= index(m[inserted[b]])
    {
      InsertedOrdered(m, keys, at, k, index, a, b);
    }
    OrderedBy(m, inserted, index);
  }

  lemma OrderedBy<T>(m: map<text, T>, keys: seq<text>, index: T -> nat)
    requires forall k :: k in keys ==> k in m
    requires forall i, j :: 0 <= i < j < |keys| ==> index(m[keys[i]]) <= index(m[keys[j]])
    ensures Ordered(m, keys, index)
  {
  }

  lemma InsertedIs(keys: seq<text>, at: nat, k: text)
    requires at <= |keys|
    ensures var inserted := keys[..at] + [k] + keys[at..];
            |inserted| == |keys| + 1 && forall a :: 0 <= a < |inserted| ==> inserted[a] == Inserted(keys, at, k, a)
  {
  }

  lemma InsertedMembers(keys: seq<text>, at: nat, k: text)
    requires at <= |keys|
    ensures forall x :: x in keys[..at] + [k] + keys[at..] <==> x in keys || x == k
  {
    assert keys == keys[..at] + keys[at..];
  }

  /** Position `a` of `keys` with `k` inserted at `at`. */
  function Inserted(keys: seq<text>, at: nat, k: text, a: nat): text
    requires at <= |keys| && a <= |keys|
  {
    if a < at then keys[a] else if a == at then k else keys[a - 1]
  }

  lemma InsertedOrdered<T>(m: map<text, T>, keys: seq<text>, at: nat, k: text, index: T -> nat, a: nat, b: nat)
    requires (forall k :: k in keys ==> k in m) && k in m && at <= |keys| && k !in keys
    requires Ordered(m, keys, index)
    requires forall a, b :: 0 <= a < b < |keys| ==> keys[a] != keys[b]
    requires forall a :: 0 <= a < at ==> index(m[keys[a]]) <= index(m[k])
    requires at < |keys| ==> index(m[k]) < index(m[keys[at]])
    requires a < b <= |keys|
    ensures Inserted(keys, at, k, a) in m && Inserted(keys, at, k, b) in m
    ensures Inserted(keys, at, k, a) != Inserted(keys, at, k, b)
    ensures index(m[Inserted(keys, at, k, a)]) <= index(m[Inserted(keys, at, k, b)])
  {
    if a < at < b {
      assert keys[a] in keys && keys[b - 1] in keys;
    } else if a == at {
      assert keys[b - 1] in keys;
      if at < b - 1 { assert index(m[keys[at]]) <= index(m[keys[b - 1]]); }
    } else if b == at {
      assert keys[a] in keys;
    }
  }

  /** One section: its header and its fields in the order of their indices. */
  method BagString(bag: Bag) returns (s: text)
    ensures exists keys :: Prints(bag, keys, s)
  {
    hide HeaderText, FieldText;
    s := HeaderText(bag.name, bag.comment);
    var order := Iterate(bag.fields);
    var sorted := SortByIndex(bag.fields, order, FieldIndex);
    var i := 0;
    while i < |sorted|
      invariant 0 <= i <= |sorted|
      invariant s == HeaderText(bag.name, bag.comment) + FieldsText(bag.fields, sorted[..i])
    {
      assert sorted[..i + 1][..i] == sorted[..i];
      assert sorted[i] in sorted;
      Regroup([], HeaderText(bag.name, bag.comment), FieldsText(bag.fields, sorted[..i]), FieldText(bag.fields[sorted[i]]));
      s := s + FieldText(bag.fields[sorted[i]]);
      i := i + 1;
    }
    assert sorted[..i] == sorted;
    SortedWithin(bag.fields, sorted);
    assert Prints(bag, sorted, s);
  }

  ghost predicate Prints(bag: Bag, keys: seq<text>, s: text) {
    Sorted(bag.fields, keys, FieldIndex) && KeysWithin(bag.fields, keys) && s == BagText(bag, keys)
  }

  lemma SectionsTextNext(sections: Sections, layout: Layout, i: nat)
    requires Lays(sections, layout) && i < |layout.names|
    ensures (forall name :: name in layout.names[..i + 1] ==> name in sections) && layout.names[i] in sections
    ensures KeysWithin(sections[layout.names[i]].fields, layout.keys[layout.names[i]])
    ensures SectionsText(sections, layout.names[..i + 1], layout)
            == SectionsText(sections, layout.names[..i], layout)
               + BagText(sections[layout.names[i]], layout.keys[layout.names[i]])
  {
    hide BagText, Ordered;
    assert layout.names[..i + 1][..i] == layout.names[..i] && layout.names[i] in layout.names;
  }

  lemma SortedWithin(fields: map<text, Field>, keys: seq<text>)
    requires Sorted(fields, keys, FieldIndex)
    ensures KeysWithin(fields, keys)
  {
  }
}
