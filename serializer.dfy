/** The three writers as loops: each walks the unit list once, filing every
    unit's element under its file (and, in 2.0, its group) in a map, then
    emits the files in ascending key order. Each is proved to build exactly
    the tree that `Writer` defines without loops. */
module Serializer {
  import opened Basics
  import opened TranslationUnits
  import opened Keys
  import opened Sorting
  import opened Writer

  // ---- XLIFF 1.2 ----

  /** A 1.2 file being filled: its attributes and its `trans-unit` elements. */
  datatype Entry1 = Entry1(attrs: Attrs, units: seq<Node>)

  /** The files of the 1.2 writer after the units `us`: a unit with a new
      key creates its file from its own fields, and every unit's element is
      appended to the file of its key. */
  function Filing1(us: seq<Unit>): map<string, Entry1>
    decreases |us|
  {
    if us == [] then map[]
    else
      var init, u := us[..|us| - 1], us[|us| - 1];
      var files := Filing1(init);
      var key := MakeTUHashKey(u);
      var e := if key in files then files[key] else Entry1(FileAttrs1(u), []);
      files[key := Entry1(e.attrs, e.units + [NextUnit1(init, u)])]
  }

  /** A key without a file has no first unit and no elements. */
  lemma {:induction false} Filing1Absent(us: seq<Unit>, k: string)
    requires k !in Filing1(us)
    ensures FirstIn(us, k).None? && TransUnits1(us, k) == []
    decreases |us|
  {
    if us != [] {
      Filing1Absent(us[..|us| - 1], k);
    }
  }

  /** The files filed so far are those of the keys seen so far. */
  lemma {:induction false} Filing1Keys(us: seq<Unit>, k: string)
    ensures k in Filing1(us) <==> k in FileKeys(us)
    decreases |us|
  {
    if us != [] {
      var init := us[..|us| - 1];
      Filing1Keys(init, k);
      assert FileKeys(us) == FileKeys(init) + [MakeTUHashKey(us[|us| - 1])];
    }
  }

  /** Each file holds the attributes of its first unit and the elements of
      all its units. */
  lemma {:induction false} Filing1Entries(us: seq<Unit>, k: string)
    requires k in Filing1(us)
    ensures FirstIn(us, k).Some?
    ensures Filing1(us)[k] == Entry1(FileAttrs1(FirstIn(us, k).value), TransUnits1(us, k))
    decreases |us|
  {
    var init := us[..|us| - 1];
    if k in Filing1(init) {
      Filing1Entries(init, k);
    } else {
      Filing1Absent(init, k);
    }
  }

  /** Every key of the written order has a file. */
  lemma Filing1Sorted(us: seq<Unit>)
    ensures forall k :: k in SortedKeys(FileKeys(us)) ==> k in Filing1(us)
  {
    forall k | k in SortedKeys(FileKeys(us)) ensures k in Filing1(us) {
      Filing1Keys(us, k);
    }
  }

  /** The element of one unit with the id it is written with, and the
      counter after it: the unit's own id when it has one, otherwise the
      counter, which then moves on; a numeric id above the counter moves the
      counter past it. */
  method NextId(u: Unit, index: nat) returns (id: string, index': nat)
    ensures id == IdText(u.id, index) && index' == NextCounter(index, u.id)
  {
    index' := index;
    if IdTruthy(u.id) {
      id := IdString(u.id.value);
    } else {
      id := NatToString(index');
      index' := index' + 1;
    }
    if IdTruthy(u.id) && u.id.value.Num? && u.id.value.n > index' {
      index' := u.id.value.n + 1;
    }
  }

  /** One pass of the 1.2 loop: the unit's file is created from it when its
      key is new, and its element is appended to that file. */
  method File1Unit(us: seq<Unit>, u: Unit, files: map<string, Entry1>, order: seq<string>, index: nat)
    returns (files': map<string, Entry1>, order': seq<string>, index': nat)
    requires files == Filing1(us) && order == Distinct(FileKeys(us)) && index == CounterAfter(us)
    ensures files' == Filing1(us + [u]) && order' == Distinct(FileKeys(us + [u])) && index' == CounterAfter(us + [u])
  {
    var key := MakeTUHashKey(u);
    Filing1Keys(us, key);
    var file: Entry1;
    order' := order;
    if key in files {
      file := files[key];
    } else {
      file := Entry1(FileAttrs1(u), []);
      order' := order + [key];
    }
    var id;
    id, index' := NextId(u, index);
    var node := TransUnit1(u, id);
    files' := files[key := file.(units := file.units + [node])];
    assert node == NextUnit1(us, u);
    assert (us + [u])[..|us|] == us && (us + [u])[|us|] == u;
    assert Filing1(us + [u]) == files[key := Entry1(file.attrs, file.units + [NextUnit1(us, u)])];
    CounterSnoc(us, u);
    Snoc1(us, u, key);
    DistinctSnoc(FileKeys(us), key);
  }

  /** Pass `i` of the 1.2 loop, over the unit at position `i`. */
  method File1At(us: seq<Unit>, i: nat, files: map<string, Entry1>, order: seq<string>, index: nat)
    returns (files': map<string, Entry1>, order': seq<string>, index': nat)
    requires i < |us|
    requires files == Filing1(us[..i]) && order == Distinct(FileKeys(us[..i])) && index == CounterAfter(us[..i])
    ensures files' == Filing1(us[..i + 1]) && order' == Distinct(FileKeys(us[..i + 1]))
    ensures index' == CounterAfter(us[..i + 1])
  {
    assert us[..i + 1] == us[..i] + [us[i]];
    files', order', index' := File1Unit(us[..i], us[i], files, order, index);
  }

  /** The `file` elements for the keys `ks`, in that order. */
  method Emit1(t: Tools, us: seq<Unit>, files: map<string, Entry1>, ks: seq<string>) returns (nodes: seq<Node>)
    requires files == Filing1(us) && forall k :: k in ks ==> k in files
    ensures nodes == Files1(t, us, ks)
  {
    nodes := [];
    var m := 0;
    while m < |ks|
      invariant m <= |ks| && nodes == Files1(t, us, ks[..m])
    {
      var k := ks[m];
      assert ks[..m + 1][..m] == ks[..m];
      assert k in files;
      Filing1Entries(us, k);
      var file := files[k];
      nodes := nodes + [File1(t, file.attrs, file.units)];
      m := m + 1;
    }
    assert ks[..|ks|] == ks;
  }

  /** `toString1()` without the text writer: the element tree of the 1.2
      document of the units `us`. */
  method Build1(v: Version, t: Tools, us: seq<Unit>) returns (tree: Node)
    ensures tree == Tree1(v, t, us)
  {
    var files: map<string, Entry1>, order: seq<string>, index: nat := map[], [], 1;
    var i := 0;
    while i < |us|
      invariant i <= |us| && files == Filing1(us[..i])
      invariant order == Distinct(FileKeys(us[..i])) && index == CounterAfter(us[..i])
    {
      files, order, index := File1At(us, i, files, order, index);
      i := i + 1;
    }
    assert us[..|us|] == us;
    // the file keys, sorted so that files come out in the same order each time
    var sorted := Sort(order);
    Filing1Sorted(us);
    var nodes := Emit1(t, us, files, sorted);
    tree := Node("xliff", map["version" := Some(VersionString(v))], nodes, None);
  }

  // ---- XLIFF 2.0, standard and customized ----

  /** A 2.0 file being filled: its attributes and its groups. */
  datatype Entry2 = Entry2(attrs: Attrs, groups: seq<Node>)

  /** A group element carries name `name`. */
  predicate Named(g: Node, name: string)
  {
    "name" in g.attrs && g.attrs["name"] == Some(name)
  }

  /** The position of the first group named `name`, if any. */
  function FirstNamed(groups: seq<Node>, name: string): (r: Option<nat>)
    ensures r.Some? ==> r.value < |groups| && Named(groups[r.value], name)
    ensures r.Some? ==> forall j :: 0 <= j < r.value ==> !Named(groups[j], name)
    ensures r.None? ==> forall j :: 0 <= j < |groups| ==> !Named(groups[j], name)
    decreases |groups|
  {
    if groups == [] then None
    else if Named(groups[0], name) then Some(0)
    else
      var r := FirstNamed(groups[1..], name);
      if r.Some? then Some(r.value + 1) else None
  }

  /** The groups of a file after one more unit element `node` of group
      `name`: it joins the first group of that name, or a new group `shell`
      appended at the end. */
  function Placed(groups: seq<Node>, name: string, shell: Node, node: Node): seq<Node>
  {
    var at := FirstNamed(groups, name);
    if at.Some? then groups[at.value := WithUnit(groups[at.value], node)] else groups + [WithUnit(shell, node)]
  }

  /** Placing an element in a group already present updates that group. */
  lemma PlacedAt(groups: seq<Node>, name: string, shell: Node, node: Node, at: nat, placed: seq<Node>)
    requires FirstNamed(groups, name) == Some(at) && placed == groups[at := WithUnit(groups[at], node)]
    ensures Placed(groups, name, shell, node) == placed
  {
  }

  /** Placing an element with no group of its name appends a new group. */
  lemma PlacedNew(groups: seq<Node>, name: string, shell: Node, node: Node, placed: seq<Node>)
    requires FirstNamed(groups, name).None? && placed == groups + [WithUnit(shell, node)]
    ensures Placed(groups, name, shell, node) == placed
  {
  }

  /** One more unit `u` for a 2.0 writer holding `files`: a unit with a new
      key creates its file, numbered `fileNumber`, and the unit's element
      `node` joins the first group of its name there, or a new group
      numbered `groupNumber`. */
  function FileStep2(l: Layout, files: map<string, Entry2>, u: Unit, fileNumber: nat, groupNumber: nat, node: Node)
    : map<string, Entry2>
  {
    var key, name := FileKey2(l, u), GroupName(l, u);
    var e := if key in files then files[key] else Entry2(FileShellAttrs(l, u, key, fileNumber), []);
    files[key := Entry2(e.attrs, Placed(e.groups, name, GroupShell(l, key, groupNumber, name), node))]
  }

  /** `files` holds exactly the files of the units `us`, each with the
      attributes its first unit gave it and its groups. */
  ghost predicate Agrees(l: Layout, us: seq<Unit>, files: map<string, Entry2>)
  {
    forall k :: AgreesOn(l, us, files, k)
  }

  /** `files` agrees with the units `us` on key `k`: it holds a file for `k`
      exactly when some unit has that key, and that file is the one the
      units give. */
  predicate AgreesOn(l: Layout, us: seq<Unit>, files: map<string, Entry2>, k: string)
  {
    (k in files <==> k in Keys2(l, us))
    && (k in files ==> k in Keys2(l, us) && files[k] == Entry2(FileAttrs2(l, us, k), GroupsOf(l, us, k)))
  }

  /** The first group named like the unit is the one at the position of
      its name among the file's group names. */
  lemma {:induction false} GroupFound(l: Layout, us: seq<Unit>, u: Unit, at: nat)
    requires var gs := GroupsOf(l, us, FileKey2(l, u));
             at < |gs| && Named(gs[at], GroupName(l, u))
             && forall j :: 0 <= j < at ==> !Named(gs[j], GroupName(l, u))
    ensures var ns := Distinct(GroupNamesIn(l, us, FileKey2(l, u)));
            GroupName(l, u) in ns && IndexOf(ns, GroupName(l, u)) == at
  {
    GroupsOfNames(l, us, FileKey2(l, u));
  }

  /** No group named like the unit means the file has no such group name. */
  lemma {:induction false} GroupMissing(l: Layout, us: seq<Unit>, u: Unit)
    requires var gs := GroupsOf(l, us, FileKey2(l, u));
             forall j :: 0 <= j < |gs| ==> !Named(gs[j], GroupName(l, u))
    ensures GroupName(l, u) !in Distinct(GroupNamesIn(l, us, FileKey2(l, u)))
  {
    GroupsOfNames(l, us, FileKey2(l, u));
  }

  /** Placing the unit's element among its file's groups gives the file's
      groups after the unit, and a new group exactly when the (file, group)
      pair is new. */
  lemma {:induction false} PlacedGroups(l: Layout, us: seq<Unit>, u: Unit, gn: nat)
    requires gn == |Distinct(Pairs(l, us))| + 1
    ensures var k, n := FileKey2(l, u), GroupName(l, u);
            FirstNamed(GroupsOf(l, us, k), n).Some? <==> (k, n) in Pairs(l, us)
    ensures var k, n := FileKey2(l, u), GroupName(l, u);
            Placed(GroupsOf(l, us, k), n, GroupShell(l, k, gn, n), NextUnit2(l, us, u)) == GroupsOf(l, us + [u], k)
  {
    var k, n := FileKey2(l, u), GroupName(l, u);
    if FirstNamed(GroupsOf(l, us, k), n).Some? {
      PlacedFound(l, us, u, GroupShell(l, k, gn, n));
    } else {
      PlacedMissing(l, us, u, gn);
    }
  }

  /** `PlacedGroups` when the file has a group named like the unit: the
      shell of a new group is not used. */
  lemma {:induction false} PlacedFound(l: Layout, us: seq<Unit>, u: Unit, shell: Node)
    requires FirstNamed(GroupsOf(l, us, FileKey2(l, u)), GroupName(l, u)).Some?
    ensures (FileKey2(l, u), GroupName(l, u)) in Pairs(l, us)
    ensures Placed(GroupsOf(l, us, FileKey2(l, u)), GroupName(l, u), shell, NextUnit2(l, us, u))
            == GroupsOf(l, us + [u], FileKey2(l, u))
  {
    var k, n := FileKey2(l, u), GroupName(l, u);
    var gs, ns := GroupsOf(l, us, k), Distinct(GroupNamesIn(l, us, k));
    var at := FirstNamed(gs, n).value;
    var node := NextUnit2(l, us, u);
    GroupFound(l, us, u, at);
    assert n in GroupNamesIn(l, us, k);
    GroupsOfGrow(l, us, u);
    assert IndexOf(ns, n) == at;
    assert GroupsOf(l, us + [u], k) == gs[at := WithUnit(gs[at], node)];
    PlacedAt(gs, n, shell, node, at, GroupsOf(l, us + [u], k));
  }

  /** `PlacedGroups` when the file has no group named like the unit. */
  lemma {:induction false} PlacedMissing(l: Layout, us: seq<Unit>, u: Unit, gn: nat)
    requires FirstNamed(GroupsOf(l, us, FileKey2(l, u)), GroupName(l, u)).None?
    requires gn == |Distinct(Pairs(l, us))| + 1
    ensures (FileKey2(l, u), GroupName(l, u)) !in Pairs(l, us)
    ensures Placed(GroupsOf(l, us, FileKey2(l, u)), GroupName(l, u), GroupShell(l, FileKey2(l, u), gn, GroupName(l, u)),
                   NextUnit2(l, us, u))
            == GroupsOf(l, us + [u], FileKey2(l, u))
  {
    GroupMissing(l, us, u);
    GroupsOfNew(l, us, u);
    var k, n := FileKey2(l, u), GroupName(l, u);
    PlacedNew(GroupsOf(l, us, k), n, GroupShell(l, k, gn, n), NextUnit2(l, us, u),
              GroupsOf(l, us + [u], k));
  }

  /** The entry a step of the 2.0 writer puts under the unit's key. */
  lemma StepEntry(l: Layout, files: map<string, Entry2>, u: Unit, fn: nat, gn: nat, node: Node)
    ensures var key, name := FileKey2(l, u), GroupName(l, u);
            var e := if key in files then files[key] else Entry2(FileShellAttrs(l, u, key, fn), []);
            FileStep2(l, files, u, fn, gn, node) == files[key := Entry2(e.attrs, Placed(e.groups, name, GroupShell(l, key, gn, name), node))]
  {
  }

  /** A file other than the unit's keeps its entry. */
  lemma {:induction false} StepOther(l: Layout, files: map<string, Entry2>, init: seq<Unit>, u: Unit, k: string,
                  fn: nat, gn: nat, node: Node)
    requires k != FileKey2(l, u) && k in Keys2(l, init) && k in files
    requires files[k] == Entry2(FileAttrs2(l, init, k), GroupsOf(l, init, k))
    ensures k in Keys2(l, init + [u]) && k in FileStep2(l, files, u, fn, gn, node)
    ensures FileStep2(l, files, u, fn, gn, node)[k] == Entry2(FileAttrs2(l, init + [u], k), GroupsOf(l, init + [u], k))
  {
    FileAttrs2Snoc(l, init, u, k);
    GroupsOfOther(l, init, u, k);
  }

  /** The unit's file, already open, gets the unit's element. */
  lemma {:induction false} StepOpen(l: Layout, files: map<string, Entry2>, init: seq<Unit>, u: Unit, fn: nat, gn: nat, node: Node)
    requires FileKey2(l, u) in Keys2(l, init) && FileKey2(l, u) in files
    requires files[FileKey2(l, u)] == Entry2(FileAttrs2(l, init, FileKey2(l, u)), GroupsOf(l, init, FileKey2(l, u)))
    requires gn == |Distinct(Pairs(l, init))| + 1 && node == NextUnit2(l, init, u)
    ensures var k := FileKey2(l, u);
            k in Keys2(l, init + [u]) && k in FileStep2(l, files, u, fn, gn, node)
            && FileStep2(l, files, u, fn, gn, node)[k] == Entry2(FileAttrs2(l, init + [u], k), GroupsOf(l, init + [u], k))
  {
    var k := FileKey2(l, u);
    FileAttrs2Snoc(l, init, u, k);
    PlacedGroups(l, init, u, gn);
  }

  /** The unit's file, not yet open, is created holding the unit's group. */
  lemma {:induction false} StepNew(l: Layout, files: map<string, Entry2>, init: seq<Unit>, u: Unit, fn: nat, gn: nat, node: Node)
    requires FileKey2(l, u) !in Keys2(l, init) && FileKey2(l, u) !in files
    requires fn == |Distinct(Keys2(l, init))| + 1 && gn == |Distinct(Pairs(l, init))| + 1 && node == NextUnit2(l, init, u)
    ensures var k := FileKey2(l, u);
            k in Keys2(l, init + [u]) && k in FileStep2(l, files, u, fn, gn, node)
            && FileStep2(l, files, u, fn, gn, node)[k] == Entry2(FileAttrs2(l, init + [u], k), GroupsOf(l, init + [u], k))
  {
    var k, n := FileKey2(l, u), GroupName(l, u);
    var shell := GroupShell(l, k, gn, n);
    assert FileStep2(l, files, u, fn, gn, node)[k] == Entry2(FileShellAttrs(l, u, k, fn), Placed([], n, shell, node));
    FileAttrs2New(l, init, u);
    GroupNamesAbsent(l, init, k);
    PlacedGroups(l, init, u, gn);
    assert Placed([], n, shell, node) == GroupsOf(l, init + [u], k);
  }

  /** One step of the writer gives each file the entry of the units seen. */
  lemma {:induction false} StepAt(l: Layout, files: map<string, Entry2>, init: seq<Unit>, u: Unit, fn: nat, gn: nat, node: Node, k: string)
    requires AgreesOn(l, init, files, k)
    requires fn == |Distinct(Keys2(l, init))| + 1 && gn == |Distinct(Pairs(l, init))| + 1 && node == NextUnit2(l, init, u)
    requires k in FileStep2(l, files, u, fn, gn, node)
    ensures k in Keys2(l, init + [u])
    ensures FileStep2(l, files, u, fn, gn, node)[k] == Entry2(FileAttrs2(l, init + [u], k), GroupsOf(l, init + [u], k))
  {
    if k != FileKey2(l, u) {
      StepOther(l, files, init, u, k, fn, gn, node);
    } else if k in files {
      StepOpen(l, files, init, u, fn, gn, node);
    } else {
      StepNew(l, files, init, u, fn, gn, node);
    }
  }

  /** One step of the writer, with the next file number, group number and
      unit element, keeps its files in agreement with the units seen. */
  lemma {:induction false} StepAgrees(l: Layout, files: map<string, Entry2>, init: seq<Unit>, u: Unit, fn: nat, gn: nat, node: Node)
    requires Agrees(l, init, files)
    requires fn == |Distinct(Keys2(l, init))| + 1 && gn == |Distinct(Pairs(l, init))| + 1 && node == NextUnit2(l, init, u)
    ensures Agrees(l, init + [u], FileStep2(l, files, u, fn, gn, node))
  {
    var files', key := FileStep2(l, files, u, fn, gn, node), FileKey2(l, u);
    StepEntry(l, files, u, fn, gn, node);
    Keys2Snoc(l, init, u);
    assert files'.Keys == files.Keys + {key};
    forall k
      ensures AgreesOn(l, init + [u], files', k)
    {
      assert AgreesOn(l, init, files, k);
      if k in files' {
        StepAt(l, files, init, u, fn, gn, node, k);
      }
    }
  }

  /** The counters after one more unit: the group number moves on when the
      unit needs a new group, the file number when it needs a new file. */
  lemma {:induction false} CountersSnoc(l: Layout, us: seq<Unit>, u: Unit)
    ensures var p := (FileKey2(l, u), GroupName(l, u));
            |Distinct(Pairs(l, us + [u]))| == |Distinct(Pairs(l, us))| + (if p in Pairs(l, us) then 0 else 1)
    ensures var k := FileKey2(l, u);
            Distinct(Keys2(l, us + [u])) == Distinct(Keys2(l, us)) + (if k in Keys2(l, us) then [] else [k])
  {
    PairsSnoc(l, us, u);
    DistinctSnoc(Pairs(l, us), (FileKey2(l, u), GroupName(l, u)));
    Keys2Snoc(l, us, u);
    DistinctSnoc(Keys2(l, us), FileKey2(l, u));
  }

  /** `group.filter(item => item._attributes.name === name)[0]`: the
      position of the first group named `name`, if any. */
  method FindGroup(groups: seq<Node>, name: string) returns (at: Option<nat>)
    ensures at == FirstNamed(groups, name)
  {
    var j := 0;
    while j < |groups|
      invariant j <= |groups| && forall i :: 0 <= i < j ==> !Named(groups[i], name)
    {
      if Named(groups[j], name) {
        return Some(j);
      }
      j := j + 1;
    }
    return None;
  }

  /** Place the element `node` among `groups`: in the first group named
      `name`, or in the new group `shell` appended at the end. */
  method PlaceUnit(groups: seq<Node>, name: string, shell: Node, node: Node) returns (groups': seq<Node>, added: bool)
    ensures groups' == Placed(groups, name, shell, node)
    ensures added <==> FirstNamed(groups, name).None?
  {
    var at := FindGroup(groups, name);
    if at.Some? {
      groups' := groups[at.value := WithUnit(groups[at.value], node)];
      added := false;
    } else {
      groups' := groups + [WithUnit(shell, node)];
      added := true;
    }
  }

  /** A file created with its first group already in place puts the first
      unit there, as if that group had been appended for it. */
  lemma PlacedFresh(shell: Node, other: Node, name: string, node: Node)
    requires Named(shell, name)
    ensures Placed([shell], name, other, node) == Placed([], name, shell, node)
  {
    assert FirstNamed([shell], name) == Some(0);
    assert [shell][0 := WithUnit(shell, node)] == [WithUnit(shell, node)];
  }

  /** The tail of one pass of the 2.0 loop: the unit's id, then its element
      placed among the groups of its file `file`; a new group takes the
      number `groupIndex`. */
  method AddUnit(l: Layout, us: seq<Unit>, u: Unit, file: Entry2, index: nat, groupIndex: nat)
    returns (entry: Entry2, index': nat, groupIndex': nat)
    requires index == CounterAfter(us)
    ensures index' == CounterAfter(us + [u])
    ensures var name := GroupName(l, u);
            entry == Entry2(file.attrs, Placed(file.groups, name, GroupShell(l, FileKey2(l, u), groupIndex, name), NextUnit2(l, us, u)))
    ensures groupIndex' == groupIndex + (if FirstNamed(file.groups, GroupName(l, u)).None? then 1 else 0)
  {
    var key, name := FileKey2(l, u), GroupName(l, u);
    var id;
    id, index' := NextId(u, index);
    var node := UnitNode(l, u, id);
    var groups, added := PlaceUnit(file.groups, name, GroupShell(l, key, groupIndex, name), node);
    entry := Entry2(file.attrs, groups);
    groupIndex' := if added then groupIndex + 1 else groupIndex;
    CounterSnoc(us, u);
  }

  /** The counters after a unit whose file is open: a new group only when
      no group of the file bears the unit's group name. */
  lemma {:induction false} OpenStep(l: Layout, us: seq<Unit>, u: Unit, groups: seq<Node>, groupIndex: nat)
    requires FileKey2(l, u) in Keys2(l, us) && groups == GroupsOf(l, us, FileKey2(l, u))
    requires groupIndex == |Distinct(Pairs(l, us))| + 1
    ensures groupIndex + (if FirstNamed(groups, GroupName(l, u)).None? then 1 else 0)
            == |Distinct(Pairs(l, us + [u]))| + 1
    ensures Distinct(Keys2(l, us + [u])) == Distinct(Keys2(l, us))
  {
    CountersSnoc(l, us, u);
    PlacedGroups(l, us, u, groupIndex);
  }

  /** A unit whose file is new: the file opened holding a first group
      `shell` named like the unit places the unit there, and the counters
      move on by one file and one group. */
  lemma {:induction false} NewStep(l: Layout, us: seq<Unit>, u: Unit, shell: Node, other: Node, node: Node, groupIndex: nat)
    requires FileKey2(l, u) !in Keys2(l, us)
    requires groupIndex == |Distinct(Pairs(l, us))| + 1
    requires shell == GroupShell(l, FileKey2(l, u), groupIndex, GroupName(l, u))
    ensures Placed([shell], GroupName(l, u), other, node) == Placed([], GroupName(l, u), shell, node)
    ensures FirstNamed([shell], GroupName(l, u)).Some?
    ensures groupIndex + 1 == |Distinct(Pairs(l, us + [u]))| + 1
    ensures Distinct(Keys2(l, us + [u])) == Distinct(Keys2(l, us)) + [FileKey2(l, u)]
  {
    assert Named(shell, GroupName(l, u));
    PlacedFresh(shell, other, GroupName(l, u), node);
    CountersSnoc(l, us, u);
    GroupNamesAbsent(l, us, FileKey2(l, u));
    PlacedGroups(l, us, u, groupIndex);
  }

  /** One pass of the 2.0 loop: the unit's file is created, with a first
      group named like the unit, when its key is new; the unit's element
      then joins the first group of its name in that file, or a new group
      appended to it. */
  method File2Unit(l: Layout, us: seq<Unit>, u: Unit, files: map<string, Entry2>, order: seq<string>,
                   index: nat, groupIndex: nat, fileIndex: nat)
    returns (files': map<string, Entry2>, order': seq<string>, index': nat, groupIndex': nat, fileIndex': nat)
    requires FileKey2(l, u) in files <==> FileKey2(l, u) in Keys2(l, us)
    requires FileKey2(l, u) in files ==> files[FileKey2(l, u)].groups == GroupsOf(l, us, FileKey2(l, u))
    requires order == Distinct(Keys2(l, us)) && index == CounterAfter(us)
    requires groupIndex == |Distinct(Pairs(l, us))| + 1 && fileIndex == |Distinct(Keys2(l, us))| + 1
    ensures files' == FileStep2(l, files, u, fileIndex, groupIndex, NextUnit2(l, us, u))
    ensures order' == Distinct(Keys2(l, us + [u])) && index' == CounterAfter(us + [u])
    ensures groupIndex' == |Distinct(Pairs(l, us + [u]))| + 1 && fileIndex' == |Distinct(Keys2(l, us + [u]))| + 1
  {
    var key, name := FileKey2(l, u), GroupName(l, u);
    var shell := GroupShell(l, key, groupIndex, name);
    var file: Entry2;
    var next: nat;
    if key in files {
      file := files[key];
      order', next, fileIndex' := order, groupIndex, fileIndex;
      OpenStep(l, us, u, file.groups, groupIndex);
    } else {
      file := Entry2(FileShellAttrs(l, u, key, fileIndex), [shell]);
      order', next, fileIndex' := order + [key], groupIndex + 1, fileIndex + 1;
      NewStep(l, us, u, shell, GroupShell(l, key, next, name), NextUnit2(l, us, u), groupIndex);
    }
    var entry;
    entry, index', groupIndex' := AddUnit(l, us, u, file, index, next);
    files' := files[key := entry];

    var node := NextUnit2(l, us, u);
    if key in files {
      assert entry == Entry2(files[key].attrs, Placed(files[key].groups, name, shell, node));
    } else {
      assert entry == Entry2(FileShellAttrs(l, u, key, fileIndex), Placed([], name, shell, node));
    }
    StepEntry(l, files, u, fileIndex, groupIndex, node);
  }

  /** Pass `i` of the 2.0 loop, over the unit at position `i`. */
  method File2At(l: Layout, us: seq<Unit>, i: nat, files: map<string, Entry2>, order: seq<string>,
                 index: nat, groupIndex: nat, fileIndex: nat)
    returns (files': map<string, Entry2>, order': seq<string>, index': nat, groupIndex': nat, fileIndex': nat)
    requires i < |us|
    requires Agrees(l, us[..i], files) && order == Distinct(Keys2(l, us[..i])) && index == CounterAfter(us[..i])
    requires groupIndex == |Distinct(Pairs(l, us[..i]))| + 1 && fileIndex == |Distinct(Keys2(l, us[..i]))| + 1
    ensures Agrees(l, us[..i + 1], files') && order' == Distinct(Keys2(l, us[..i + 1])) && index' == CounterAfter(us[..i + 1])
    ensures groupIndex' == |Distinct(Pairs(l, us[..i + 1]))| + 1 && fileIndex' == |Distinct(Keys2(l, us[..i + 1]))| + 1
  {
    var init, u := us[..i], us[i];
    assert us[..i + 1] == init + [u];
    var key := FileKey2(l, u);
    assert AgreesOn(l, init, files, key);
    files', order', index', groupIndex', fileIndex' := File2Unit(l, init, u, files, order, index, groupIndex, fileIndex);
    StepAgrees(l, files, init, u, fileIndex, groupIndex, NextUnit2(l, init, u));
  }

  /** The `file` element the writer emits for a file it holds: a standard
      file carries the tool header after its groups. */
  function FileNode(l: Layout, t: Tools, file: Entry2): Node
  {
    Node("file", file.attrs, file.groups + (if l == Standard then Header(t) else []), None)
  }

  /** The file element of key `k`, written from the file the writer holds
      for it, is the document's file element of `k`. */
  lemma EmitOne(l: Layout, t: Tools, us: seq<Unit>, files: map<string, Entry2>, k: string)
    requires Agrees(l, us, files) && k in Keys2(l, us)
    ensures k in files && FileNode(l, t, files[k]) == File2(l, t, us, k)
  {
    assert AgreesOn(l, us, files, k);
  }

  /** The `file` elements the writer emits from the files it holds, for the
      keys `ks` in that order. */
  function Emitted(l: Layout, t: Tools, files: map<string, Entry2>, ks: seq<string>): (r: seq<Node>)
    requires forall i :: 0 <= i < |ks| ==> ks[i] in files
    ensures |r| == |ks|
    decreases |ks|
  {
    if ks == [] then [] else Emitted(l, t, files, ks[..|ks| - 1]) + [FileNode(l, t, files[ks[|ks| - 1]])]
  }

  /** A writer state that agrees with the units holds a file for every key
      of the document. */
  lemma HeldKeys(l: Layout, us: seq<Unit>, files: map<string, Entry2>, ks: seq<string>)
    requires Agrees(l, us, files) && forall i :: 0 <= i < |ks| ==> ks[i] in Keys2(l, us)
    ensures forall i :: 0 <= i < |ks| ==> ks[i] in files
  {
    forall i | 0 <= i < |ks|
      ensures ks[i] in files
    {
      assert AgreesOn(l, us, files, ks[i]);
    }
  }

  /** From a writer state that agrees with the units, the emitted elements
      are the document's file elements. */
  lemma {:induction false} EmittedIsFiles2(l: Layout, t: Tools, us: seq<Unit>, files: map<string, Entry2>, ks: seq<string>)
    requires Agrees(l, us, files) && forall i :: 0 <= i < |ks| ==> ks[i] in Keys2(l, us) && ks[i] in files
    ensures Emitted(l, t, files, ks) == Files2(l, t, us, ks)
    decreases |ks|
  {
    if ks != [] {
      var init, k := ks[..|ks| - 1], ks[|ks| - 1];
      EmittedIsFiles2(l, t, us, files, init);
      EmitOne(l, t, us, files, k);
    }
  }

  /** The `file` elements for the keys `ks`, in that order, each written
      from the file the writer holds for it. */
  method Emit2(l: Layout, t: Tools, files: map<string, Entry2>, ks: seq<string>) returns (nodes: seq<Node>)
    requires forall i :: 0 <= i < |ks| ==> ks[i] in files
    ensures nodes == Emitted(l, t, files, ks)
  {
    nodes := [];
    var m := 0;
    while m < |ks|
      invariant m <= |ks| && nodes == Emitted(l, t, files, ks[..m])
    {
      assert ks[..m + 1][..m] == ks[..m];
      nodes := nodes + [FileNode(l, t, files[ks[m]])];
      m := m + 1;
    }
    assert ks[..m] == ks;
  }

  /** The files opened by the 2.0 loop, in order of opening, sort to the
      file keys of the document. */
  lemma SortedOrder(l: Layout, us: seq<Unit>, order: seq<string>)
    requires order == Distinct(Keys2(l, us))
    ensures NoRepeats(order) && Sort(order) == SortedKeys(Keys2(l, us))
    ensures forall i :: 0 <= i < |Sort(order)| ==> Sort(order)[i] in Keys2(l, us)
  {
  }

  /** The 2.0 tree is the root over the file elements of the selected units. */
  lemma Tree2Is(l: Layout, v: Version, t: Tools, us: seq<Unit>, sel: seq<Unit>, nodes: seq<Node>)
    requires us != [] && sel == Selected(us, us[0].sourceLocale, us[0].targetLocale)
    requires nodes == Files2(l, t, sel, SortedKeys(Keys2(l, sel)))
    ensures Tree2(l, v, t, us) == Node("xliff", Root2Attrs(v, us[0]), nodes, None)
  {
  }

  /** `toString2()` (standard layout) and `toStringCustom()` (customized
      layout) without the text writer: the element tree of the 2.0
      document of the units `us`. */
  method Build2(l: Layout, v: Version, t: Tools, us: seq<Unit>) returns (tree: Node)
    requires us != []
    ensures tree == Tree2(l, v, t, us)
  {
    // only the units with the first unit's source and target locales
    var sel := Selected(us, us[0].sourceLocale, us[0].targetLocale);
    var files: map<string, Entry2>, order: seq<string> := map[], [];
    var index: nat, groupIndex: nat, fileIndex: nat := 1, 1, 1;
    var i := 0;
    while i < |sel|
      invariant i <= |sel| && Agrees(l, sel[..i], files)
      invariant order == Distinct(Keys2(l, sel[..i])) && index == CounterAfter(sel[..i])
      invariant groupIndex == |Distinct(Pairs(l, sel[..i]))| + 1 && fileIndex == |Distinct(Keys2(l, sel[..i]))| + 1
    {
      files, order, index, groupIndex, fileIndex := File2At(l, sel, i, files, order, index, groupIndex, fileIndex);
      i := i + 1;
    }
    assert sel[..|sel|] == sel;
    // the file keys, sorted so that files come out in the same order each time
    SortedOrder(l, sel, order);
    var sorted := Sort(order);
    HeldKeys(l, sel, files, sorted);
    var nodes := Emit2(l, t, files, sorted);
    EmittedIsFiles2(l, t, sel, files, sorted);
    Tree2Is(l, v, t, us, sel, nodes);
    tree := Node("xliff", Root2Attrs(v, us[0]), nodes, None);
  }
}
