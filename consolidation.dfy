/**
 * `generateConsolidatedTables`: the metadata records of a batch grouped by
 * document type, one table per type, headed by the union of the field
 * names of that type's records.
 */
module Consolidation {
  import opened Common
  import opened DataExtractor
  import opened AppStore

  datatype ConsolidatedTable = ConsolidatedTable(title: string, headers: Row, rows: seq<Row>)

  /** `xs` with `x` appended unless already there: adding to a `Set` in insertion order. */
  function AddDistinct(xs: seq<string>, x: string): seq<string> {
    if x in xs then xs else xs + [x]
  }

  /** Every string of `ks` added in order. */
  function AddAll(xs: seq<string>, ks: seq<string>): seq<string> {
    if ks == [] then xs else AddDistinct(AddAll(xs, ks[..|ks| - 1]), ks[|ks| - 1])
  }

  predicate Distinct(xs: seq<string>) {
    forall i, j :: 0 <= i < j < |xs| ==> xs[i] != xs[j]
  }

  /** The document types in order of first appearance: `Object.keys(groups)`. */
  function DocTypes(list: seq<MetadataRecord>): seq<string> {
    if list == [] then [] else AddDistinct(DocTypes(list[..|list| - 1]), list[|list| - 1].docType)
  }

  /** The records of one type, in list order: `groups[type]`. */
  function Group(list: seq<MetadataRecord>, docType: string): seq<MetadataRecord> {
    if list == [] then []
    else Group(list[..|list| - 1], docType) + (if list[|list| - 1].docType == docType then [list[|list| - 1]] else [])
  }

  /** The field names of the records in order of first appearance: `Array.from(keys)`. */
  function UnionKeys(items: seq<MetadataRecord>): seq<string> {
    if items == [] then [] else AddAll(UnionKeys(items[..|items| - 1]), KeysOf(items[|items| - 1].fields))
  }

  /** `item.fields[h] || ""`. */
  function FieldText(fields: Fields, h: string): string {
    match Lookup(fields, h)
    case Some(v) => v
    case None => ""
  }

  function TableRow(item: MetadataRecord, header: seq<string>): Row {
    [item.fileName] + seq(|header|, j requires 0 <= j < |header| => FieldText(item.fields, header[j]))
  }

  function TypeTable(docType: string, items: seq<MetadataRecord>): ConsolidatedTable {
    var header := UnionKeys(items);
    ConsolidatedTable(docType, ["Source File"] + header,
      seq(|items|, i requires 0 <= i < |items| => TableRow(items[i], header)))
  }

  /** What `generateConsolidatedTables(list)` returns. */
  function Consolidated(list: seq<MetadataRecord>): seq<ConsolidatedTable> {
    var types := DocTypes(list);
    seq(|types|, i requires 0 <= i < |types| => TypeTable(types[i], Group(list, types[i])))
  }

  /** The position of `key` among the keys of `e`. */
  function KeyIndex<V>(e: seq<(string, V)>, key: string): (r: Option<nat>)
    ensures r.Some? ==> r.value < |e| && e[r.value].0 == key
    ensures r.None? ==> key !in KeysOf(e)
  {
    if e == [] then None
    else if e[|e| - 1].0 == key then Some(|e| - 1)
    else
      var r := KeyIndex(e[..|e| - 1], key);
      assert KeysOf(e) == KeysOf(e[..|e| - 1]) + [e[|e| - 1].0];
      r
  }

  /** The grouping loop: `groups[item.docType].push(item)`, creating the group on first sight. */
  method GroupByType(list: seq<MetadataRecord>) returns (groups: seq<(string, seq<MetadataRecord>)>)
    ensures KeysOf(groups) == DocTypes(list)
    ensures forall j :: 0 <= j < |groups| ==> groups[j].1 == Group(list, groups[j].0)
  {
    groups := [];
    for i := 0 to |list|
      invariant GroupsOf(list[..i], groups)
    {
      var item := list[i];
      ghost var before := groups;
      var k := KeyIndex(groups, item.docType);
      if k.Some? {
        groups := groups[k.value := (item.docType, groups[k.value].1 + [item])];
      } else {
        groups := groups + [(item.docType, [item])];
      }
      assert list[..i + 1] == list[..i] + [item];
      GroupsStep(list[..i], item, before, groups);
    }
    assert list[..|list|] == list;
  }

  predicate GroupsOf(prefix: seq<MetadataRecord>, groups: seq<(string, seq<MetadataRecord>)>) {
    KeysOf(groups) == DocTypes(prefix) &&
    forall j :: 0 <= j < |groups| ==> groups[j].1 == Group(prefix, groups[j].0)
  }

  /** One pass of the grouping loop keeps `groups` the grouping of the records seen so far. */
  lemma GroupsStep(prefix: seq<MetadataRecord>, item: MetadataRecord,
                   before: seq<(string, seq<MetadataRecord>)>, after: seq<(string, seq<MetadataRecord>)>)
    requires GroupsOf(prefix, before)
    requires var k := KeyIndex(before, item.docType);
      after == if k.Some? then before[k.value := (item.docType, before[k.value].1 + [item])]
               else before + [(item.docType, [item])]
    ensures GroupsOf(prefix + [item], after)
  {
    var list := prefix + [item];
    assert list[..|list| - 1] == prefix;
    DocTypesExact(prefix);
    var k := KeyIndex(before, item.docType);
    if k.Some? {
      assert item.docType in DocTypes(prefix) by { assert KeysOf(before)[k.value] == item.docType; }
      assert KeysOf(after) == KeysOf(before);
      forall j | 0 <= j < |after| ensures after[j].1 == Group(list, after[j].0) {
        if j != k.value {
          assert KeysOf(before)[j] != KeysOf(before)[k.value];
        }
      }
    } else {
      GroupOfAbsent(prefix, item.docType);
      assert KeysOf(after) == KeysOf(before) + [item.docType];
      forall j | 0 <= j < |after| ensures after[j].1 == Group(list, after[j].0) {
        if j < |before| {
          assert KeysOf(before)[j] == after[j].0;
        }
      }
    }
  }

  /** A type that has not been seen has no records yet. */
  lemma {:induction false} GroupOfAbsent(list: seq<MetadataRecord>, docType: string)
    requires docType !in DocTypes(list)
    ensures Group(list, docType) == []
  {
    if list != [] {
      DocTypesGrow(list[..|list| - 1], list[|list| - 1].docType);
      GroupOfAbsent(list[..|list| - 1], docType);
    }
  }

  lemma DocTypesGrow(xs: seq<MetadataRecord>, t: string)
    ensures forall x :: x in AddDistinct(DocTypes(xs), t) <==> x in DocTypes(xs) || x == t
  {
  }

  /** The key loops: every field name of every record, added in order. */
  method HeaderKeys(items: seq<MetadataRecord>) returns (keys: seq<string>)
    ensures keys == UnionKeys(items)
  {
    keys := [];
    for a := 0 to |items|
      invariant keys == UnionKeys(items[..a])
    {
      assert items[..a + 1][..a] == items[..a];
      var names := KeysOf(items[a].fields);
      ghost var before := keys;
      for b := 0 to |names|
        invariant keys == AddAll(before, names[..b])
      {
        assert names[..b + 1][..b] == names[..b];
        keys := AddDistinct(keys, names[b]);
      }
      assert names[..|names|] == names;
    }
    assert items[..|items|] == items;
  }

  /** `generateConsolidatedTables`. */
  method GenerateConsolidatedTables(list: seq<MetadataRecord>) returns (tables: seq<ConsolidatedTable>)
    ensures tables == Consolidated(list)
  {
    var groups := GroupByType(list);
    tables := [];
    for g := 0 to |groups|
      invariant |tables| == g
      invariant forall j :: 0 <= j < g ==> tables[j] == TypeTable(groups[j].0, groups[j].1)
    {
      var (docType, items) := groups[g];
      var header := HeaderKeys(items);
      var rows: seq<Row> := [];
      for i := 0 to |items|
        invariant rows == seq(i, r requires 0 <= r < i => TableRow(items[r], header))
      {
        rows := rows + [TableRow(items[i], header)];
      }
      tables := tables + [ConsolidatedTable(docType, ["Source File"] + header, rows)];
    }
    assert |groups| == |DocTypes(list)| by { assert |KeysOf(groups)| == |groups|; }
    forall j | 0 <= j < |tables| ensures tables[j] == Consolidated(list)[j] {
      assert groups[j].0 == KeysOf(groups)[j] == DocTypes(list)[j];
    }
  }

  // ---------------------------------------------------------------------
  // Properties

  lemma {:induction false} AddAllMembers(xs: seq<string>, ks: seq<string>)
    ensures forall x :: x in AddAll(xs, ks) <==> x in xs || x in ks
    ensures Distinct(xs) ==> Distinct(AddAll(xs, ks))
    ensures |xs| <= |AddAll(xs, ks)| && AddAll(xs, ks)[..|xs|] == xs
  {
    if ks != [] {
      var init := ks[..|ks| - 1];
      AddAllMembers(xs, init);
      assert ks == init + [ks[|ks| - 1]];
    }
  }

  /** The document types are pairwise different and are exactly the types of the records. */
  lemma {:induction false} DocTypesExact(list: seq<MetadataRecord>)
    ensures Distinct(DocTypes(list))
    ensures forall t :: t in DocTypes(list) <==> exists i :: 0 <= i < |list| && list[i].docType == t
  {
    if list != [] {
      var init := list[..|list| - 1];
      DocTypesExact(init);
      forall t | t in DocTypes(list) ensures exists i :: 0 <= i < |list| && list[i].docType == t {
        if t in DocTypes(init) {
          var i :| 0 <= i < |init| && init[i].docType == t;
          assert list[i].docType == t;
        } else {
          assert list[|list| - 1].docType == t;
        }
      }
      forall t | exists i :: 0 <= i < |list| && list[i].docType == t ensures t in DocTypes(list) {
        var i :| 0 <= i < |list| && list[i].docType == t;
        if i < |list| - 1 {
          assert init[i].docType == t;
        }
      }
    }
  }

  /** A group holds exactly the records of its type, in list order. */
  lemma {:induction false} GroupExact(list: seq<MetadataRecord>, t: string)
    ensures forall r :: r in Group(list, t) ==> r in list && r.docType == t
    ensures forall i :: 0 <= i < |list| && list[i].docType == t ==> list[i] in Group(list, t)
    ensures |Group(list, t)| <= |list|
  {
    if list != [] {
      var init := list[..|list| - 1];
      GroupExact(init, t);
      forall i | 0 <= i < |list| && list[i].docType == t ensures list[i] in Group(list, t) {
        if i < |list| - 1 {
          assert init[i] == list[i];
        }
      }
    }
  }

  /** The field names of a group are pairwise different and are exactly the field names its records have. */
  lemma {:induction false} UnionKeysExact(items: seq<MetadataRecord>)
    ensures Distinct(UnionKeys(items))
    ensures forall k :: k in UnionKeys(items) <==> exists i :: 0 <= i < |items| && k in KeysOf(items[i].fields)
  {
    if items != [] {
      var init := items[..|items| - 1];
      var last := items[|items| - 1];
      UnionKeysExact(init);
      AddAllMembers(UnionKeys(init), KeysOf(last.fields));
      forall k | k in UnionKeys(items) ensures exists i :: 0 <= i < |items| && k in KeysOf(items[i].fields) {
        if k in UnionKeys(init) {
          var i :| 0 <= i < |init| && k in KeysOf(init[i].fields);
          assert items[i] == init[i];
        }
      }
      forall k | exists i :: 0 <= i < |items| && k in KeysOf(items[i].fields) ensures k in UnionKeys(items) {
        var i :| 0 <= i < |items| && k in KeysOf(items[i].fields);
        if i < |items| - 1 {
          assert init[i] == items[i];
        }
      }
    }
  }

  /** A group keeps list order and multiplicity: grouping two runs of records concatenates their groups. */
  lemma {:induction false} GroupAppend(a: seq<MetadataRecord>, b: seq<MetadataRecord>, t: string)
    ensures Group(a + b, t) == Group(a, t) + Group(b, t)
    decreases |b|
  {
    if b == [] {
      assert a + b == a;
    } else {
      var init := b[..|b| - 1];
      assert (a + b)[..|a + b| - 1] == a + init;
      assert (a + b)[|a + b| - 1] == b[|b| - 1];
      GroupAppend(a, init, t);
    }
  }

  /** A single record forms the group of its own type and no other. */
  lemma GroupOne(r: MetadataRecord, t: string)
    ensures Group([r], t) == if r.docType == t then [r] else []
  {
    assert [r][..0] == [];
  }

  lemma {:induction false} AddAllAppend(xs: seq<string>, a: seq<string>, b: seq<string>)
    ensures AddAll(xs, a + b) == AddAll(AddAll(xs, a), b)
    decreases |b|
  {
    if b == [] {
      assert a + b == a;
    } else {
      var init := b[..|b| - 1];
      assert (a + b)[..|a + b| - 1] == a + init;
      assert (a + b)[|a + b| - 1] == b[|b| - 1];
      AddAllAppend(xs, a, init);
    }
  }

  /**
   * Adding `ks` to an empty set lists them in order of first appearance:
   * the entry at `i` occurs in `ks` before the entry at any later `j` first does.
   */
  lemma {:induction false} AddAllFirstSeen(ks: seq<string>, i: nat, j: nat)
    requires i < j < |AddAll([], ks)|
    ensures exists p :: (0 <= p < |ks| && ks[p] == AddAll([], ks)[i] &&
      (forall q :: 0 <= q <= p ==> ks[q] != AddAll([], ks)[j]))
    decreases |ks|
  {
    var init := ks[..|ks| - 1];
    var x := ks[|ks| - 1];
    var d := AddAll([], init);
    AddAllMembers([], init);
    if x in d || j < |d| {
      AddAllFirstSeen(init, i, j);
      var p :| 0 <= p < |init| && init[p] == d[i] && forall q :: 0 <= q <= p ==> init[q] != d[j];
      assert ks[p] == init[p];
      forall q | 0 <= q <= p ensures ks[q] != d[j] {
        assert ks[q] == init[q];
      }
    } else {
      assert d[i] in init;
      var p :| 0 <= p < |init| && init[p] == d[i];
      assert ks[p] == init[p];
      forall q | 0 <= q <= p ensures ks[q] != x {
        assert ks[q] == init[q] && init[q] in init;
      }
    }
  }

  /** The document type of each record, in list order. */
  function Types(list: seq<MetadataRecord>): (r: seq<string>)
    ensures |r| == |list| && forall i :: 0 <= i < |r| ==> r[i] == list[i].docType
  {
    if list == [] then [] else Types(list[..|list| - 1]) + [list[|list| - 1].docType]
  }

  /** The field names of the records one after another, each record's in its own order. */
  function AllKeys(items: seq<MetadataRecord>): seq<string> {
    if items == [] then [] else AllKeys(items[..|items| - 1]) + KeysOf(items[|items| - 1].fields)
  }

  lemma {:induction false} DocTypesOfTypes(list: seq<MetadataRecord>)
    ensures DocTypes(list) == AddAll([], Types(list))
  {
    if list != [] {
      var init := list[..|list| - 1];
      DocTypesOfTypes(init);
      var ks := Types(list);
      assert ks[..|ks| - 1] == Types(init);
    }
  }

  lemma {:induction false} UnionKeysOfAllKeys(items: seq<MetadataRecord>)
    ensures UnionKeys(items) == AddAll([], AllKeys(items))
  {
    if items != [] {
      var init := items[..|items| - 1];
      UnionKeysOfAllKeys(init);
      AddAllAppend([], AllKeys(init), KeysOf(items[|items| - 1].fields));
    }
  }

  /**
   * Document types come in order of first appearance: the type at `i`
   * occurs in the list before any record of the type at a later `j`.
   */
  lemma DocTypesFirstSeen(list: seq<MetadataRecord>, i: nat, j: nat)
    requires i < j < |DocTypes(list)|
    ensures exists p :: (0 <= p < |list| && list[p].docType == DocTypes(list)[i] &&
      (forall q :: 0 <= q <= p ==> list[q].docType != DocTypes(list)[j]))
  {
    DocTypesOfTypes(list);
    AddAllFirstSeen(Types(list), i, j);
  }

  /**
   * Header keys come in order of first appearance over the records' field
   * names: the key at `i` occurs before any occurrence of the key at a later `j`.
   */
  lemma UnionKeysFirstSeen(items: seq<MetadataRecord>, i: nat, j: nat)
    requires i < j < |UnionKeys(items)|
    ensures exists p :: (0 <= p < |AllKeys(items)| && AllKeys(items)[p] == UnionKeys(items)[i] &&
      (forall q :: 0 <= q <= p ==> AllKeys(items)[q] != UnionKeys(items)[j]))
  {
    UnionKeysOfAllKeys(items);
    AddAllFirstSeen(AllKeys(items), i, j);
  }

  /**
   * One table per distinct document type, in order of first appearance;
   * each headed by `Source File` and then its types' field names, with one
   * row per record of the type: the file name, then each field's value or
   * `""` where the record has no such field.
   */
  lemma ConsolidatedShape(list: seq<MetadataRecord>, j: nat)
    requires j < |Consolidated(list)|
    ensures |Consolidated(list)| == |DocTypes(list)|
    ensures var t := Consolidated(list)[j];
      var items := Group(list, t.title);
      t.title == DocTypes(list)[j] &&
      t.headers[0] == "Source File" && t.headers[1..] == UnionKeys(items) &&
      |t.rows| == |items| &&
      forall r :: 0 <= r < |items| ==>
        |t.rows[r]| == |t.headers| && t.rows[r][0] == items[r].fileName &&
        forall c :: 1 <= c < |t.headers| ==> t.rows[r][c] == FieldText(items[r].fields, t.headers[c])
  {
    var t := Consolidated(list)[j];
    assert t == TypeTable(DocTypes(list)[j], Group(list, DocTypes(list)[j]));
    TypeTableShape(DocTypes(list)[j], Group(list, DocTypes(list)[j]));
  }

  /** One type's table: the header is "Source File" and the key union; one row per record. */
  lemma TypeTableShape(docType: string, items: seq<MetadataRecord>)
    ensures var t := TypeTable(docType, items);
      t.title == docType && t.headers[0] == "Source File" && t.headers[1..] == UnionKeys(items) &&
      |t.rows| == |items| &&
      forall r :: 0 <= r < |items| ==>
        |t.rows[r]| == |t.headers| && t.rows[r][0] == items[r].fileName &&
        forall c :: 1 <= c < |t.headers| ==> t.rows[r][c] == FieldText(items[r].fields, t.headers[c])
  {
    var t := TypeTable(docType, items);
    var header := UnionKeys(items);
    assert t.headers == ["Source File"] + header;
    assert t.headers[1..] == header;
    forall r | 0 <= r < |items|
      ensures |t.rows[r]| == |t.headers| && t.rows[r][0] == items[r].fileName
      ensures forall c :: 1 <= c < |t.headers| ==> t.rows[r][c] == FieldText(items[r].fields, t.headers[c])
    {
      assert t.rows[r] == TableRow(items[r], header);
      forall c | 1 <= c < |t.headers| ensures t.rows[r][c] == FieldText(items[r].fields, t.headers[c]) {
        assert t.headers[c] == header[c - 1];
      }
    }
  }

  /** A missing field gives `""`, a present one its value. */
  lemma FieldTextLookup(fields: Fields, h: string)
    ensures h !in KeysOf(fields) ==> FieldText(fields, h) == ""
    ensures forall i :: 0 <= i < |fields| && fields[i].0 == h ==> FieldText(fields, h) == fields[i].1
  {
    LookupFinds(fields, h);
    forall i | 0 <= i < |fields| && fields[i].0 == h ensures FieldText(fields, h) == fields[i].1 {
      var r := Lookup(fields, h);
      assert h in KeysOf(fields) by { assert KeysOf(fields)[i] == h; }
      var m :| 0 <= m < |fields| && fields[m] == (h, r.value);
      assert KeysOf(fields)[m] == KeysOf(fields)[i];
    }
  }
}
