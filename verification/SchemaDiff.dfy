/** The schema drift report of `handler/schema.go`. */
module SchemaDiff {
  import opened Strings
  import opened Sorting

  datatype Only = Only(name: string, detail: string)

  datatype Changed = Changed(name: string, sourceDetail: string, targetDetail: string)

  // ---------------------------------------------------------------- the report as a function

  ghost function Sorted(names: set<string>): seq<string> {
    StringLessIsTotal();
    Enumerate(names, StringLess)
  }

  lemma SortedMeaning(names: set<string>, k: string)
    ensures k in Sorted(names) <==> k in names
    ensures NoDuplicates(Sorted(names)) && Ascends(Sorted(names), StringLess)
  {
    StringLessIsTotal();
    EnumerateMeaning(names, StringLess);
    assert k in Elements(Sorted(names)) <==> k in Sorted(names);
    var xs := Sorted(names);
    forall i, j | 0 <= i < j < |xs| ensures xs[i] != xs[j] {
      assert StringLess(xs[i], xs[j]);
    }
  }

  function OnlyKeys(left: map<string, string>, right: map<string, string>): set<string> {
    left.Keys - right.Keys
  }

  function ChangedKeys(left: map<string, string>, right: map<string, string>): set<string> {
    set k | k in left && k in right && left[k] != right[k]
  }

  function OnlyEntry(m: map<string, string>, name: string): Only {
    Only(name, if name in m then m[name] else "")
  }

  function ChangedEntry(left: map<string, string>, right: map<string, string>, name: string): Changed {
    Changed(name, if name in left then left[name] else "", if name in right then right[name] else "")
  }

  /** One entry per name that only the left side has, in ascending order of names. */
  ghost function DiffOnlyOf(left: map<string, string>, right: map<string, string>): seq<Only> {
    Mapped(Sorted(OnlyKeys(left, right)), n => OnlyEntry(left, n))
  }

  ghost function DiffChangedOf(left: map<string, string>, right: map<string, string>): seq<Changed> {
    Mapped(Sorted(ChangedKeys(left, right)), n => ChangedEntry(left, right, n))
  }

  // ---------------------------------------------------------------- the program

  const OnlyByName: (Only, Only) -> bool := (a: Only, b: Only) => StringBefore(a.name, b.name)
  const ChangedByName: (Changed, Changed) -> bool := (a: Changed, b: Changed) => StringBefore(a.name, b.name)

  /** The map is walked in any order; sorting by name hides it. */
  method DiffOnly(left: map<string, string>, right: map<string, string>) returns (out: seq<Only>)
    ensures out == DiffOnlyOf(left, right)
  {
    out := [];
    ghost var names: seq<string> := [];
    var rest := left.Keys;
    while rest != {}
      invariant rest <= left.Keys && NoDuplicates(names)
      invariant forall k :: k in names <==> k in OnlyKeys(left, right) && k !in rest
      invariant out == Mapped(names, n => OnlyEntry(left, n))
      decreases rest
    {
      var key :| key in rest;
      rest := rest - {key};
      if key !in right {
        out := out + [Only(key, left[key])];
        names := names + [key];
      }
    }
    assert Elements(names) == OnlyKeys(left, right);
    StringLessIsTotal();
    StableSortEnumerates(names, StringLess);
    SortMapped(names, n => OnlyEntry(left, n), StringLess, OnlyByName);
    out := SortSlice(out, OnlyByName);
  }

  method DiffChanged(left: map<string, string>, right: map<string, string>) returns (out: seq<Changed>)
    ensures out == DiffChangedOf(left, right)
  {
    out := [];
    ghost var names: seq<string> := [];
    var rest := left.Keys;
    while rest != {}
      invariant rest <= left.Keys && NoDuplicates(names)
      invariant forall k :: k in names <==> k in ChangedKeys(left, right) && k !in rest
      invariant out == Mapped(names, n => ChangedEntry(left, right, n))
      decreases rest
    {
      var key :| key in rest;
      rest := rest - {key};
      if key in right && left[key] != right[key] {
        out := out + [Changed(key, left[key], right[key])];
        names := names + [key];
      }
    }
    assert Elements(names) == ChangedKeys(left, right);
    StringLessIsTotal();
    StableSortEnumerates(names, StringLess);
    SortMapped(names, n => ChangedEntry(left, right, n), StringLess, ChangedByName);
    out := SortSlice(out, ChangedByName);
  }

  // ---------------------------------------------------------------- the report as a patch

  function Drop(m: map<string, string>, gone: seq<Only>): map<string, string> {
    if gone == [] then m else Drop(m, gone[..|gone| - 1]) - {gone[|gone| - 1].name}
  }

  function Add(m: map<string, string>, added: seq<Only>): map<string, string> {
    if added == [] then m else Add(m, added[..|added| - 1])[added[|added| - 1].name := added[|added| - 1].detail]
  }

  /** Sets the changed names to their target details, or back to their source details. */
  function Overwrite(m: map<string, string>, changed: seq<Changed>, forward: bool): map<string, string> {
    if changed == [] then m
    else
      var c := changed[|changed| - 1];
      Overwrite(m, changed[..|changed| - 1], forward)[c.name := if forward then c.targetDetail else c.sourceDetail]
  }

  lemma {:induction false} DropMapped(m: map<string, string>, names: seq<string>, of: map<string, string>, k: string)
    ensures var r := Drop(m, Mapped(names, n => OnlyEntry(of, n)));
            (k in r <==> k in m && k !in names) && (k in r ==> r[k] == m[k])
  {
    if names == [] {
    } else {
      var front := names[..|names| - 1];
      DropMapped(m, front, of, k);
      assert names == front + [names[|names| - 1]];
      assert Mapped(names, n => OnlyEntry(of, n))[..|names| - 1] == Mapped(front, n => OnlyEntry(of, n));
    }
  }

  lemma {:induction false} AddMapped(m: map<string, string>, names: seq<string>, of: map<string, string>, k: string)
    ensures var r := Add(m, Mapped(names, n => OnlyEntry(of, n)));
            && (k in r <==> k in m || k in names)
            && (k in r ==> r[k] == if k in names then OnlyEntry(of, k).detail else m[k])
  {
    if names == [] {
    } else {
      var front := names[..|names| - 1];
      AddMapped(m, front, of, k);
      assert names == front + [names[|names| - 1]];
      assert Mapped(names, n => OnlyEntry(of, n))[..|names| - 1] == Mapped(front, n => OnlyEntry(of, n));
    }
  }

  lemma {:induction false} OverwriteMapped(m: map<string, string>, names: seq<string>,
                                           left: map<string, string>, right: map<string, string>, forward: bool,
                                           k: string)
    ensures var r := Overwrite(m, Mapped(names, n => ChangedEntry(left, right, n)), forward);
            var c := ChangedEntry(left, right, k);
            && (k in r <==> k in m || k in names)
            && (k in r ==> r[k] == if k in names then (if forward then c.targetDetail else c.sourceDetail) else m[k])
  {
    if names == [] {
    } else {
      var front := names[..|names| - 1];
      OverwriteMapped(m, front, left, right, forward, k);
      assert names == front + [names[|names| - 1]];
      assert Mapped(names, n => ChangedEntry(left, right, n))[..|names| - 1] ==
          Mapped(front, n => ChangedEntry(left, right, n));
    }
  }

  ghost function Patch(source: map<string, string>, target: map<string, string>): map<string, string> {
    Add(Overwrite(Drop(source, DiffOnlyOf(source, target)), DiffChangedOf(source, target), true),
        DiffOnlyOf(target, source))
  }

  ghost function Unpatch(source: map<string, string>, target: map<string, string>): map<string, string> {
    Add(Overwrite(Drop(target, DiffOnlyOf(target, source)), DiffChangedOf(source, target), false),
        DiffOnlyOf(source, target))
  }

  /** Both directions at once, for one name. */
  lemma PatchAt(m: map<string, string>, goal: map<string, string>,
                source: map<string, string>, target: map<string, string>,
                forward: bool, k: string)
    requires if forward then m == source && goal == target else m == target && goal == source
    ensures var r := Add(Overwrite(Drop(m, DiffOnlyOf(m, goal)), DiffChangedOf(source, target), forward),
            DiffOnlyOf(goal, m));
            (k in r <==> k in goal) && (k in r ==> r[k] == goal[k])
  {
    SortedMeaning(OnlyKeys(m, goal), k);
    SortedMeaning(OnlyKeys(goal, m), k);
    SortedMeaning(ChangedKeys(source, target), k);
    var d := Drop(m, DiffOnlyOf(m, goal));
    var o := Overwrite(d, DiffChangedOf(source, target), forward);
    DropMapped(m, Sorted(OnlyKeys(m, goal)), m, k);
    OverwriteMapped(d, Sorted(ChangedKeys(source, target)), source, target, forward, k);
    AddMapped(o, Sorted(OnlyKeys(goal, m)), goal, k);
  }

  /** Dropping what only the source has, overwriting what changed and adding what only the
      target has turns the source into the target. */
  lemma ReportIsAPatch(source: map<string, string>, target: map<string, string>)
    ensures Patch(source, target) == target
  {
    forall k ensures (k in Patch(source, target) <==> k in target)
                     && (k in Patch(source, target) && k in target ==> Patch(source, target)[k] == target[k])
    {
      PatchAt(source, target, source, target, true, k);
    }
    assert Patch(source, target).Keys == target.Keys;
  }

  /** The report also leads back. */
  lemma ReportLeadsBack(source: map<string, string>, target: map<string, string>)
    ensures Unpatch(source, target) == source
  {
    forall k ensures (k in Unpatch(source, target) <==> k in source)
                     && (k in Unpatch(source, target) && k in source ==> Unpatch(source, target)[k] == source[k])
    {
      PatchAt(target, source, source, target, false, k);
    }
    assert Unpatch(source, target).Keys == source.Keys;
  }

  /** The report is empty exactly when nothing differs. */
  lemma EmptyReportExactly(source: map<string, string>, target: map<string, string>)
    ensures (DiffOnlyOf(source, target) == [] && DiffOnlyOf(target, source) == []
             && DiffChangedOf(source, target) == [])
            <==> source == target
  {
    if DiffOnlyOf(source, target) == [] && DiffOnlyOf(target, source) == [] && DiffChangedOf(source, target) == [] {
      ReportIsAPatch(source, target);
      assert Patch(source, target) == source;
    }
    if source == target {
      assert OnlyKeys(source, target) == {} && ChangedKeys(source, target) == {};
    }
  }

  lemma SortedAscends(names: set<string>, i: nat, j: nat)
    requires i < j < |Sorted(names)|
    ensures StringBefore(Sorted(names)[i], Sorted(names)[j])
  {
    SortedMeaning(names, "");
    assert StringLess(Sorted(names)[i], Sorted(names)[j]);
  }

  /** Both lists are in lexicographic order of names, each name once, with the details of its side. */
  lemma ReportSays(left: map<string, string>, right: map<string, string>, i: nat)
    ensures i < |DiffOnlyOf(left, right)| ==>
              var e := DiffOnlyOf(left, right)[i];
              && e.name in left && e.name !in right && e.detail == left[e.name]
              && (i > 0 ==> StringBefore(DiffOnlyOf(left, right)[i - 1].name, e.name))
    ensures i < |DiffChangedOf(left, right)| ==>
              var e := DiffChangedOf(left, right)[i];
              && e.name in left && e.name in right && e.sourceDetail == left[e.name] != right[e.name] == e.targetDetail
              && (i > 0 ==> StringBefore(DiffChangedOf(left, right)[i - 1].name, e.name))
  {
    if i < |DiffOnlyOf(left, right)| {
      SortedMeaning(OnlyKeys(left, right), Sorted(OnlyKeys(left, right))[i]);
      if i > 0 { SortedAscends(OnlyKeys(left, right), i - 1, i); }
    }
    if i < |DiffChangedOf(left, right)| {
      SortedMeaning(ChangedKeys(left, right), Sorted(ChangedKeys(left, right))[i]);
      if i > 0 { SortedAscends(ChangedKeys(left, right), i - 1, i); }
    }
  }

  // ---------------------------------------------------------------- fingerprints

  function ColumnFingerprint(dataType: string, nullable: string, default_: string, maxLength: string): string {
    Join([dataType, nullable, default_, maxLength], '|')
  }

  lemma ColumnFingerprintShape(t: string, n: string, d: string, m: string)
    ensures ColumnFingerprint(t, n, d, m) == Pair(t, '|', Pair(n, '|', Pair(d, '|', m)))
  {
    assert [t, n, d, m][1..] == [n, d, m] && [n, d, m][1..] == [d, m] && [d, m][1..] == [m];
    assert Join([d, m], '|') == d + ['|'] + Join([m], '|');
    assert Join([n, d, m], '|') == n + ['|'] + Join([d, m], '|');
  }

  /** Columns with the same fingerprint agree in all four fields when only the default can
      contain a bar: equal details in the report mean equal columns. */
  lemma ColumnFingerprintInjective(t: string, n: string, d: string, m: string, t': string, n': string, d': string,
                                   m': string)
    requires '|' !in t && '|' !in n && '|' !in m && '|' !in t' && '|' !in n' && '|' !in m'
    requires ColumnFingerprint(t, n, d, m) == ColumnFingerprint(t', n', d', m')
    ensures t == t' && n == n' && d == d' && m == m'
  {
    ColumnFingerprintShape(t, n, d, m);
    ColumnFingerprintShape(t', n', d', m');
    PairInjective(t, Pair(n, '|', Pair(d, '|', m)), t', Pair(n', '|', Pair(d', '|', m')), '|');
    PairInjective(n, Pair(d, '|', m), n', Pair(d', '|', m'), '|');
    PairInjectiveRight(d, m, d', m', '|');
  }

  /** The fields, in this order, with bars between them. */
  lemma FingerprintTexts(t: string, n: string, d: string, m: string, owner: string, comment: string)
    ensures ColumnFingerprint(t, n, d, m) == t + "|" + n + "|" + d + "|" + m
    ensures TableFingerprint(owner, comment) == owner + "|" + comment
    ensures Dotted(owner, comment) == owner + "." + comment
  {
    ColumnFingerprintShape(t, n, d, m);
    assert t + ['|'] + (n + ['|'] + (d + ['|'] + m)) == t + "|" + n + "|" + d + "|" + m;
  }

  function TableFingerprint(owner: string, comment: string): string {
    Pair(owner, '|', comment)
  }

  /** A change of owner can hide behind a change of comment exactly when one owner's name is
      the other's followed by a bar. */
  lemma OwnerChangeHidesExactly(owner: string, owner': string)
    requires owner != owner'
    ensures (exists c, c' :: TableFingerprint(owner, c) == TableFingerprint(owner', c')) <==>
            (owner + "|" <= owner' || owner' + "|" <= owner)
  {
    PairsClashExactly(owner, owner', '|');
    assert owner + "|" == owner + ['|'] && owner' + "|" == owner' + ['|'];
    if c, c' :| TableFingerprint(owner, c) == TableFingerprint(owner', c') {
      assert Pair(owner, '|', c) == Pair(owner', '|', c');
    }
    if c, c' :| Pair(owner, '|', c) == Pair(owner', '|', c') {
      assert TableFingerprint(owner, c) == TableFingerprint(owner', c');
    }
  }

  // ---------------------------------------------------------------- names

  /** Names in the report: schema and table, and in front of a column or an index that whole name. */
  function Dotted(qualifier: string, name: string): string {
    Pair(qualifier, '.', name)
  }

  /** Two objects get the same name exactly when they are the same, or when a dot inside a name
      moves the boundary between qualifier and name. */
  lemma NamesClashExactly(q: string, n: string, q': string, n': string)
    ensures Dotted(q, n) == Dotted(q', n') <==>
            (q == q' && n == n') || Shifted(q, n, q', n', '.') || Shifted(q', n', q, n, '.')
  {
    PairsEqualExactly(q, n, q', n', '.');
  }

  datatype Table = Table(schema: string, name: string, owner: string, comment: string)

  function KeyOf(t: Table): string {
    Dotted(t.schema, t.name)
  }

  /** The loop of `loadSchemaSnapshot` over the tables; a later table with the same key overwrites. */
  function Load(ts: seq<Table>): map<string, string> {
    if ts == [] then map[]
    else
      var t := ts[|ts| - 1];
      Load(ts[..|ts| - 1])[KeyOf(t) := TableFingerprint(t.owner, t.comment)]
  }

  /** The catalogue lists every table once, and no two of them get the same key. */
  ghost predicate Apart(ts: seq<Table>) {
    forall i, j | 0 <= i < j < |ts| :: KeyOf(ts[i]) != KeyOf(ts[j])
  }

  lemma {:induction false} LoadHas(ts: seq<Table>, key: string)
    ensures key in Load(ts) <==> exists t | t in ts :: KeyOf(t) == key
  {
    if ts == [] {
    } else {
      var front, last := ts[..|ts| - 1], ts[|ts| - 1];
      LoadHas(front, key);
      assert forall t :: t in ts <==> t in front || t == last;
    }
  }

  lemma {:induction false} LoadKeeps(ts: seq<Table>, i: nat)
    requires Apart(ts) && i < |ts|
    ensures KeyOf(ts[i]) in Load(ts) && Load(ts)[KeyOf(ts[i])] == TableFingerprint(ts[i].owner, ts[i].comment)
  {
    var front := ts[..|ts| - 1];
    if i < |front| {
      assert forall k | 0 <= k < |front| :: front[k] == ts[k];
      LoadKeeps(front, i);
    }
  }

  /** What has to hold of two catalogues for the report to tell them apart. */
  ghost predicate Legible(source: seq<Table>, target: seq<Table>) {
    && Apart(source) && Apart(target)
    && (forall s, t | s in source && t in target && KeyOf(s) == KeyOf(t) :: s.schema == t.schema && s.name == t.name)
    && (forall t | t in source || t in target :: '|' !in t.owner)
  }

  lemma EqualMapsShareTables(source: seq<Table>, target: seq<Table>, s: Table)
    requires Legible(source, target) && Load(source) == Load(target) && s in source
    ensures s in target
  {
    var i :| 0 <= i < |source| && source[i] == s;
    LoadKeeps(source, i);
    LoadHas(target, KeyOf(s));
    var t :| t in target && KeyOf(t) == KeyOf(s);
    var j :| 0 <= j < |target| && target[j] == t;
    LoadKeeps(target, j);
    PairInjective(s.owner, s.comment, t.owner, t.comment, '|');
    assert s == t;
  }

  lemma SameTablesSameMap(source: seq<Table>, target: seq<Table>)
    requires Apart(source) && Apart(target) && forall t :: t in source <==> t in target
    ensures Load(source) == Load(target)
  {
    var m, n := Load(source), Load(target);
    forall key ensures (key in m <==> key in n) && (key in m && key in n ==> m[key] == n[key]) {
      LoadHas(source, key);
      LoadHas(target, key);
      if key in m {
        var t :| t in source && KeyOf(t) == key;
        var i :| 0 <= i < |source| && source[i] == t;
        var j :| 0 <= j < |target| && target[j] == t;
        LoadKeeps(source, i);
        LoadKeeps(target, j);
      }
    }
    assert m.Keys == n.Keys;
  }

  /** Of catalogues whose names do not clash and whose owners have no bar, an empty report means
      the same tables with the same owners and comments, and conversely. */
  lemma EmptyReportMeansSameTables(source: seq<Table>, target: seq<Table>)
    requires Legible(source, target)
    ensures (DiffOnlyOf(Load(source), Load(target)) == [] && DiffOnlyOf(Load(target), Load(source)) == []
             && DiffChangedOf(Load(source), Load(target)) == [])
            <==> forall t :: t in source <==> t in target
  {
    EmptyReportExactly(Load(source), Load(target));
    if Load(source) == Load(target) {
      forall t ensures t in source <==> t in target {
        if t in source { EqualMapsShareTables(source, target, t); }
        if t in target { LegibleBack(source, target); EqualMapsShareTables(target, source, t); }
      }
    }
    if forall t :: t in source <==> t in target {
      SameTablesSameMap(source, target);
    }
  }

  lemma LegibleBack(source: seq<Table>, target: seq<Table>)
    requires Legible(source, target)
    ensures Legible(target, source)
  {
  }

  /** Table `c` in schema `a.b` and table `b.c` in schema `a` have one name: a target that lacks
      the first gives an empty report. */
  lemma DottedNamesHideATable(owner: string, comment: string)
    ensures var s, t := Table("a.b", "c", owner, comment), Table("a", "b.c", owner, comment);
            && s != t && KeyOf(s) == KeyOf(t)
            && Load([s, t]) == Load([t])
            && DiffOnlyOf(Load([s, t]), Load([t])) == [] && DiffChangedOf(Load([s, t]), Load([t])) == []
  {
    var s, t := Table("a.b", "c", owner, comment), Table("a", "b.c", owner, comment);
    assert "a.b"[1] == '.' && "a"[0] == 'a';
    assert KeyOf(s) == "a.b.c" == KeyOf(t);
    assert [s, t][..1] == [s] && [s][..0] == [] && [t][..0] == [];
    assert Load([s]) == map[][KeyOf(s) := TableFingerprint(owner, comment)];
    assert Load([s, t]) == Load([s])[KeyOf(t) := TableFingerprint(owner, comment)];
    EmptyReportExactly(Load([s, t]), Load([t]));
  }
}
