/** The part of Python's `configparser.ConfigParser` the wrapper uses: an
    ordered table of sections, each an ordered list of key/value items.
    Sections keep the order in which they were first added, keys keep the
    order in which they were first set, and setting an existing key replaces
    its value in place. */
module Config {
  import opened Text

  datatype Item = Item(key: string, value: string)
  datatype Section = Section(name: string, items: seq<Item>)
  type Table = seq<Section>

  /** `sections()`: section names in insertion order. */
  function Names(t: Table): seq<string>
  {
    if t == [] then [] else [t[0].name] + Names(t[1..])
  }

  function Keys(items: seq<Item>): seq<string>
  {
    if items == [] then [] else [items[0].key] + Keys(items[1..])
  }

  predicate Distinct(s: seq<string>)
  {
    forall i, j :: 0 <= i < j < |s| ==> s[i] != s[j]
  }

  /** What the parser guarantees of its table: no section twice, no key twice
      within a section. */
  predicate WellFormed(t: Table)
  {
    Distinct(Names(t)) && forall i :: 0 <= i < |t| ==> Distinct(Keys(t[i].items))
  }

  function Get(items: seq<Item>, k: string): Option<string>
  {
    if items == [] then None
    else if items[0].key == k then Some(items[0].value)
    else Get(items[1..], k)
  }

  /** `config[c]`: the items of section `c`. */
  function ItemsOf(t: Table, c: string): seq<Item>
    requires c in Names(t)
  {
    if t[0].name == c then t[0].items else ItemsOf(t[1..], c)
  }

  /** `config[c][k]`, `None` when the section or the key is missing. */
  function Lookup(t: Table, c: string, k: string): Option<string>
  {
    if t == [] then None
    else if t[0].name == c then Get(t[0].items, k)
    else Lookup(t[1..], c, k)
  }

  function Put(items: seq<Item>, k: string, v: string): seq<Item>
  {
    if items == [] then [Item(k, v)]
    else if items[0].key == k then [Item(k, v)] + items[1..]
    else [items[0]] + Put(items[1..], k, v)
  }

  /** `config[c][k] = v` on an existing section `c`; the sections stay as
      they are. */
  function SetItem(t: Table, c: string, k: string, v: string): (r: Table)
    requires c in Names(t)
    ensures |r| == |t| && Names(r) == Names(t)
  {
    if t[0].name == c then [Section(c, Put(t[0].items, k, v))] + t[1..]
    else [t[0]] + SetItem(t[1..], c, k, v)
  }

  /** `if c not in config: config.add_section(c)`: a missing section goes
      last, an existing one stays where it is. */
  function WithSection(t: Table, c: string): (r: Table)
    ensures Names(r) == if c in Names(t) then Names(t) else Names(t) + [c]
  {
    if c in Names(t) then t
    else
      NamesAppend(t, Section(c, []));
      t + [Section(c, [])]
  }

  function MergeItems(t: Table, c: string, items: seq<Item>): Table
    requires c in Names(t)
    ensures Names(MergeItems(t, c, items)) == Names(t)
    decreases |items|
  {
    if items == [] then t
    else
      MergeItems(SetItem(t, c, items[0].key, items[0].value), c, items[1..])
  }

  /** `config.read(file)` of a file whose parsed contents are `file`: each of
      its sections is added if absent and each of its items is set in turn. */
  function Merge(t: Table, file: Table): Table
    decreases |file|
  {
    if file == [] then t
    else
      Merge(MergeItems(WithSection(t, file[0].name), file[0].name, file[0].items), file[1..])
  }

  // ---------------------------------------------------------------- items

  lemma {:induction false} PutGet(items: seq<Item>, k: string, v: string, k': string)
    ensures Get(Put(items, k, v), k') == if k' == k then Some(v) else Get(items, k')
  {
    if items != [] && items[0].key != k {
      PutGet(items[1..], k, v, k');
    }
  }

  /** A key that is new goes last; an existing key keeps its position. */
  lemma {:induction false} PutKeys(items: seq<Item>, k: string, v: string)
    ensures Keys(Put(items, k, v)) == if k in Keys(items) then Keys(items) else Keys(items) + [k]
  {
    if items != [] && items[0].key != k {
      PutKeys(items[1..], k, v);
      assert Keys(items) == [items[0].key] + Keys(items[1..]);
    }
  }

  /** Setting a key twice is the same as setting it once to the later value. */
  lemma {:induction false} PutPut(items: seq<Item>, k: string, v1: string, v2: string)
    ensures Put(Put(items, k, v1), k, v2) == Put(items, k, v2)
  {
    if items != [] && items[0].key != k {
      PutPut(items[1..], k, v1, v2);
    }
  }

  lemma DistinctAppend(s: seq<string>, x: string)
    requires Distinct(s) && x !in s
    ensures Distinct(s + [x])
  {
  }

  lemma {:induction false} PutDistinct(items: seq<Item>, k: string, v: string)
    requires Distinct(Keys(items))
    ensures Distinct(Keys(Put(items, k, v)))
  {
    PutKeys(items, k, v);
    if k !in Keys(items) {
      DistinctAppend(Keys(items), k);
    }
  }

  /** With distinct keys, `Get` finds the value of every item. */
  lemma {:induction false} GetItem(items: seq<Item>, j: nat)
    requires j < |items| && Distinct(Keys(items))
    ensures Get(items, items[j].key) == Some(items[j].value)
  {
    if j > 0 {
      assert Keys(items)[0] == items[0].key;
      KeysAt(items, j);
      assert Keys(items[1..]) == Keys(items)[1..];
      GetItem(items[1..], j - 1);
    }
  }

  lemma {:induction false} KeysAt(items: seq<Item>, j: nat)
    requires j < |items|
    ensures |Keys(items)| == |items| && Keys(items)[j] == items[j].key
  {
    if j > 0 {
      KeysAt(items[1..], j - 1);
    } else if |items| > 1 {
      KeysAt(items[1..], 0);
    }
  }

  /** `Get` only returns values that some item holds. */
  lemma {:induction false} GetSound(items: seq<Item>, k: string)
    requires Get(items, k).Some?
    ensures Item(k, Get(items, k).value) in items
  {
    if items[0].key != k {
      GetSound(items[1..], k);
    }
  }

  /** `config[c][k]` reads the items of section `c`. */
  lemma {:induction false} LookupItemsOf(t: Table, c: string, k: string)
    requires c in Names(t)
    ensures Lookup(t, c, k) == Get(ItemsOf(t, c), k)
  {
    if t[0].name != c {
      LookupItemsOf(t[1..], c, k);
    }
  }

  lemma {:induction false} ItemsOfDistinct(t: Table, c: string)
    requires c in Names(t)
    requires forall i :: 0 <= i < |t| ==> Distinct(Keys(t[i].items))
    ensures Distinct(Keys(ItemsOf(t, c)))
  {
    if t[0].name != c {
      assert forall i :: 0 <= i < |t[1..]| ==> t[1..][i] == t[i + 1];
      ItemsOfDistinct(t[1..], c);
    }
  }

  // ---------------------------------------------------------------- sections

  lemma {:induction false} NamesAppend(t: Table, s: Section)
    ensures Names(t + [s]) == Names(t) + [s.name]
  {
    if t != [] {
      assert (t + [s])[1..] == t[1..] + [s];
      NamesAppend(t[1..], s);
    }
  }

  /** Adding a section changes no entry. */
  lemma {:induction false} WithSectionLookup(t: Table, c: string, c': string, k: string)
    ensures Lookup(WithSection(t, c), c', k) == Lookup(t, c', k)
  {
    if c !in Names(t) && t != [] {
      assert (t + [Section(c, [])])[1..] == t[1..] + [Section(c, [])];
      assert c !in Names(t[1..]);
      WithSectionLookup(t[1..], c, c', k);
    }
  }

  lemma {:induction false} WithSectionWellFormed(t: Table, c: string)
    requires WellFormed(t)
    ensures WellFormed(WithSection(t, c))
  {
    if c !in Names(t) {
      DistinctAppend(Names(t), c);
      var t' := WithSection(t, c);
      forall i | 0 <= i < |t'| ensures Distinct(Keys(t'[i].items)) {
        if i < |t| { assert t'[i] == t[i]; }
      }
    }
  }

  /** After `config[c][k] = v`, `config[c][k]` is `v` and every other entry is as before. */
  lemma {:induction false} SetItemLookup(t: Table, c: string, k: string, v: string, c': string, k': string)
    requires c in Names(t)
    ensures Lookup(SetItem(t, c, k, v), c', k') == if c' == c && k' == k then Some(v) else Lookup(t, c', k')
  {
    if t[0].name == c {
      PutGet(t[0].items, k, v, k');
    } else {
      SetItemLookup(t[1..], c, k, v, c', k');
    }
  }

  /** A later assignment to the same key overwrites an earlier one and leaves
      the key where the earlier one put it. */
  lemma {:induction false} SetItemOverwrite(t: Table, c: string, k: string, v1: string, v2: string)
    requires c in Names(t)
    ensures SetItem(SetItem(t, c, k, v1), c, k, v2) == SetItem(t, c, k, v2)
  {
    if t[0].name == c {
      PutPut(t[0].items, k, v1, v2);
    } else {
      SetItemOverwrite(t[1..], c, k, v1, v2);
    }
  }

  lemma {:induction false} SetItemWellFormed(t: Table, c: string, k: string, v: string)
    requires c in Names(t) && WellFormed(t)
    ensures WellFormed(SetItem(t, c, k, v))
  {
    var t' := SetItem(t, c, k, v);
    forall i | 0 <= i < |t'| ensures Distinct(Keys(t'[i].items)) {
      SetItemAt(t, c, k, v, i);
      if t[i].name == c {
        PutDistinct(t[i].items, k, v);
      }
    }
  }

  lemma {:induction false} SetItemAt(t: Table, c: string, k: string, v: string, i: nat)
    requires c in Names(t) && i < |t|
    ensures |SetItem(t, c, k, v)| == |t|
    ensures SetItem(t, c, k, v)[i].items == if t[i].name == c && c !in Names(t[..i]) then Put(t[i].items, k, v) else t[i].items
  {
    if t[0].name != c {
      if i > 0 {
        assert t[..i][0] == t[0] && t[..i][1..] == t[1..][..i - 1];
        SetItemAt(t[1..], c, k, v, i - 1);
      } else {
        assert Names(t[..0]) == [];
      }
    } else {
      if i > 0 {
        assert Names(t[..i])[0] == c;
      }
    }
  }

  // ---------------------------------------------------------------- merging

  lemma {:induction false} MergeItemsWellFormed(t: Table, c: string, items: seq<Item>)
    requires c in Names(t) && WellFormed(t)
    ensures WellFormed(MergeItems(t, c, items))
    decreases |items|
  {
    if items != [] {
      SetItemWellFormed(t, c, items[0].key, items[0].value);
      MergeItemsWellFormed(SetItem(t, c, items[0].key, items[0].value), c, items[1..]);
    }
  }

  /** Reading a file keeps the table well formed. */
  lemma {:induction false} MergeWellFormed(t: Table, file: Table)
    requires WellFormed(t)
    ensures WellFormed(Merge(t, file))
    decreases |file|
  {
    if file != [] {
      var c := file[0].name;
      WithSectionWellFormed(t, c);
      MergeItemsWellFormed(WithSection(t, c), c, file[0].items);
      MergeWellFormed(MergeItems(WithSection(t, c), c, file[0].items), file[1..]);
    }
  }

  /** The sections already there keep their places and come first. */
  lemma {:induction false} MergeKeepsNames(t: Table, file: Table)
    ensures |Names(t)| <= |Names(Merge(t, file))| && Names(Merge(t, file))[..|Names(t)|] == Names(t)
    decreases |file|
  {
    if file != [] {
      var c := file[0].name;
      var t1 := MergeItems(WithSection(t, c), c, file[0].items);
      MergeKeepsNames(t1, file[1..]);
      var n := Names(Merge(t1, file[1..]));
      assert Names(t1)[..|Names(t)|] == Names(t);
      assert n[..|Names(t)|] == n[..|Names(t1)|][..|Names(t)|];
    }
  }

  /** Every section of the file is present afterwards. */
  lemma {:induction false} MergeHasFileSections(t: Table, file: Table)
    ensures forall c :: c in Names(file) ==> c in Names(Merge(t, file))
    decreases |file|
  {
    if file != [] {
      var c := file[0].name;
      var t1 := MergeItems(WithSection(t, c), c, file[0].items);
      MergeHasFileSections(t1, file[1..]);
      MergeKeepsNames(t1, file[1..]);
      var n := Names(Merge(t1, file[1..]));
      assert c in Names(t1);
      var j :| 0 <= j < |Names(t1)| && Names(t1)[j] == c;
      assert n[..|Names(t1)|][j] == c;
    }
  }

  /** The section names after adding, in order, each of `names` that is not
      there yet. */
  function AddNames(known: seq<string>, names: seq<string>): seq<string>
    decreases |names|
  {
    if names == [] then known
    else AddNames(if names[0] in known then known else known + [names[0]], names[1..])
  }

  lemma {:induction false} AddNamesMembers(known: seq<string>, names: seq<string>, c: string)
    ensures c in AddNames(known, names) <==> c in known || c in names
    decreases |names|
  {
    if names != [] {
      var known' := if names[0] in known then known else known + [names[0]];
      AddNamesMembers(known', names[1..], c);
      assert names == [names[0]] + names[1..];
    }
  }

  /** Reading a file appends exactly the file's new sections, in file order,
      after the sections that were there. */
  lemma {:induction false} MergeNames(t: Table, file: Table)
    ensures Names(Merge(t, file)) == AddNames(Names(t), Names(file))
    decreases |file|
  {
    if file != [] {
      var c := file[0].name;
      var t1 := MergeItems(WithSection(t, c), c, file[0].items);
      MergeNames(t1, file[1..]);
      assert Names(file)[0] == c && Names(file)[1..] == Names(file[1..]);
    }
  }

  /** After reading a file, a section is present exactly when it was there
      before or the file has it. */
  lemma MergeOnlyFileSections(t: Table, file: Table)
    ensures forall c :: c in Names(Merge(t, file)) <==> c in Names(t) || c in Names(file)
  {
    MergeNames(t, file);
    forall c
      ensures c in Names(Merge(t, file)) <==> c in Names(t) || c in Names(file)
    {
      AddNamesMembers(Names(t), Names(file), c);
    }
  }

  lemma {:induction false} MergeItemsLookup(t: Table, c: string, items: seq<Item>, c': string, k: string)
    requires c in Names(t) && Distinct(Keys(items))
    ensures Lookup(MergeItems(t, c, items), c', k) == if c' == c && Get(items, k).Some? then Get(items, k) else Lookup(t, c', k)
    decreases |items|
  {
    if items != [] {
      var t1 := SetItem(t, c, items[0].key, items[0].value);
      SetItemLookup(t, c, items[0].key, items[0].value, c', k);
      assert Keys(items[1..]) == Keys(items)[1..];
      MergeItemsLookup(t1, c, items[1..], c', k);
      if c' == c && k == items[0].key {
        KeysAt(items, 0);
        GetAbsent(items[1..], k);
      }
    }
  }

  lemma {:induction false} GetAbsent(items: seq<Item>, k: string)
    requires k !in Keys(items)
    ensures Get(items, k) == None
  {
    if items != [] {
      GetAbsent(items[1..], k);
    }
  }

  /** Reading a well-formed file: its values win, everything else is kept. */
  lemma {:induction false} MergeLookup(t: Table, file: Table, c: string, k: string)
    requires WellFormed(file)
    ensures Lookup(Merge(t, file), c, k) == if Lookup(file, c, k).Some? then Lookup(file, c, k) else Lookup(t, c, k)
    decreases |file|
  {
    if file != [] {
      var c0 := file[0].name;
      var t1 := MergeItems(WithSection(t, c0), c0, file[0].items);
      WellFormedTail(file);
      MergeLookup(t1, file[1..], c, k);
      MergeSectionLookup(t, file[0], c, k);
      if c == c0 {
        LookupAbsent(file[1..], c0, k);
      }
    }
  }

  /** The rest of a well-formed table is well formed and does not repeat its first section. */
  lemma WellFormedTail(t: Table)
    requires WellFormed(t) && t != []
    ensures WellFormed(t[1..]) && Distinct(Keys(t[0].items)) && t[0].name !in Names(t[1..])
  {
    assert Names(t[1..]) == Names(t)[1..];
    assert Names(t)[0] == t[0].name;
    forall i | 0 <= i < |t[1..]| ensures Distinct(Keys(t[1..][i].items)) {
      assert t[1..][i] == t[i + 1];
    }
  }

  /** Reading one section of a file: its keys take the file's values. */
  lemma MergeSectionLookup(t: Table, s: Section, c: string, k: string)
    requires Distinct(Keys(s.items))
    ensures Lookup(MergeItems(WithSection(t, s.name), s.name, s.items), c, k)
         == if c == s.name && Get(s.items, k).Some? then Get(s.items, k) else Lookup(t, c, k)
  {
    MergeItemsLookup(WithSection(t, s.name), s.name, s.items, c, k);
    WithSectionLookup(t, s.name, c, k);
  }

  lemma {:induction false} LookupAbsent(t: Table, c: string, k: string)
    requires c !in Names(t)
    ensures Lookup(t, c, k) == None
  {
    if t != [] {
      LookupAbsent(t[1..], c, k);
    }
  }

  /** Python's global `configparser.ConfigParser()` object, updated in place. */
  class ConfigParser {
    var table: Table

    constructor ()
      ensures table == []
    {
      table := [];
    }

    /** `sections()` */
    function Sections(): seq<string>
      reads this
    {
      Names(table)
    }

    /** `add_section(c)`, which refuses a section that already exists. */
    method AddSection(c: string)
      requires c !in Names(table)
      modifies this
      ensures table == old(table) + [Section(c, [])]
    {
      table := table + [Section(c, [])];
    }

    /** `self[c][k] = v`, which needs section `c` to exist. */
    method Set(c: string, k: string, v: string)
      requires c in Names(table)
      modifies this
      ensures table == SetItem(old(table), c, k, v)
    {
      table := SetItem(table, c, k, v);
    }

    /** `read(path)` of a file whose parsed contents are `file`. */
    method Read(file: Table)
      modifies this
      ensures table == Merge(old(table), file)
    {
      table := Merge(table, file);
    }
  }
}
