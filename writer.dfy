/** What the three writers build, defined without loops: the element tree of
    an XLIFF 1.2 document, of an XLIFF 2.0 document and of the customized 2.0
    layout, each as a function of the unit list. The document class builds
    the same trees step by step and is proved to agree with these. */
module Writer {
  import opened Basics
  import opened TranslationUnits
  import opened Escape
  import opened Keys
  import opened Sorting

  /** The attributes of an element as the writer sets them; `None` is an
      attribute whose value is `undefined`. */
  type Attrs = map<string, Option<string>>

  /** An element of the tree handed to the XML text writer. */
  datatype Node = Node(name: string, attrs: Attrs, children: seq<Node>, text: Option<string>)

  /** The tool description given to the document's constructor. */
  datatype Tools = Tools(id: Option<string>, name: Option<string>, version: Option<string>,
                         company: Option<string>, copyright: Option<string>)

  function Names(nodes: seq<Node>): seq<string>
  {
    seq(|nodes|, i requires 0 <= i < |nodes| => nodes[i].name)
  }

  // ---- ids ----

  /** `tu.id` is truthy: a non-zero number or a non-empty string. */
  predicate IdTruthy(id: Option<UnitId>)
  {
    match id
    case None => false
    case Some(Num(n)) => n != 0
    case Some(Name(s)) => s != ""
  }

  function IdString(id: UnitId): string
  {
    match id
    case Num(n) => NatToString(n)
    case Name(s) => s
  }

  /** The id written for a unit: its own id, or the counter. */
  function IdText(id: Option<UnitId>, counter: nat): string
  {
    if IdTruthy(id) then IdString(id.value) else NatToString(counter)
  }

  /** The counter after a unit: one more when the unit took the counter as
      its id, and one past a numeric id that is larger than the counter. */
  function NextCounter(counter: nat, id: Option<UnitId>): (r: nat)
    ensures r >= counter
    ensures !IdTruthy(id) ==> r == counter + 1
    ensures IdTruthy(id) && id.value.Num? && id.value.n > counter ==> r == id.value.n + 1
    ensures IdTruthy(id) && !(id.value.Num? && id.value.n > counter) ==> r == counter
  {
    var c := if IdTruthy(id) then counter else counter + 1;
    if id.Some? && id.value.Num? && id.value.n != 0 && id.value.n > c then id.value.n + 1 else c
  }

  /** The counter after all of `us`, starting from 1. */
  function CounterAfter(us: seq<Unit>): (r: nat)
    ensures r >= 1
    decreases |us|
  {
    if us == [] then 1 else NextCounter(CounterAfter(us[..|us| - 1]), us[|us| - 1].id)
  }

  /** The id written for the unit at position `i`. */
  function IdAt(us: seq<Unit>, i: nat): string
    requires i < |us|
  {
    IdText(us[i].id, CounterAfter(us[..i]))
  }

  /** Without explicit ids, units are numbered 1, 2, 3, ... in list order. */
  lemma {:induction false} AutoIdsSequential(us: seq<Unit>)
    requires forall i :: 0 <= i < |us| ==> !IdTruthy(us[i].id)
    ensures CounterAfter(us) == |us| + 1
    ensures forall i :: 0 <= i < |us| ==> IdAt(us, i) == NatToString(i + 1)
    decreases |us|
  {
    if us != [] {
      var init := us[..|us| - 1];
      AutoIdsSequential(init);
      forall i | 0 <= i < |us| ensures IdAt(us, i) == NatToString(i + 1) {
        if i < |init| {
          assert us[..i] == init[..i];
          assert us[i] == init[i];
          assert IdAt(us, i) == IdAt(init, i);
        } else {
          assert us[..i] == init;
        }
      }
    }
  }

  /** An explicit numeric id above the counter moves the counter past it, so
      the next unit without an id is numbered after it. */
  lemma ExplicitIdMovesCounter(us: seq<Unit>, u: Unit, v: Unit)
    requires u.id.Some? && u.id.value.Num? && u.id.value.n > CounterAfter(us)
    requires !IdTruthy(v.id)
    ensures CounterAfter(us + [u]) == u.id.value.n + 1
    ensures IdAt(us + [u, v], |us| + 1) == NatToString(u.id.value.n + 1)
  {
    var c := CounterAfter(us);
    assert (us + [u])[..|us|] == us;
    assert CounterAfter(us + [u]) == NextCounter(c, u.id);
    assert (us + [u, v])[..|us| + 1] == us + [u];
    assert (us + [u, v])[|us| + 1] == v;
    assert IdAt(us + [u, v], |us| + 1) == IdText(v.id, CounterAfter(us + [u]));
  }

  /** An explicit id equal to the counter does not move it: the next unit
      without an id is written with the same id. */
  lemma EqualIdCollides(us: seq<Unit>, u: Unit, v: Unit)
    requires u.id == Some(Num(CounterAfter(us)))
    requires !IdTruthy(v.id)
    ensures IdAt(us + [u, v], |us|) == IdAt(us + [u, v], |us| + 1)
  {
    var c := CounterAfter(us);
    assert (us + [u, v])[..|us|] == us;
    assert (us + [u, v])[|us|] == u;
    assert IdAt(us + [u, v], |us|) == IdText(u.id, c) == NatToString(c);
    assert (us + [u])[..|us|] == us;
    assert CounterAfter(us + [u]) == NextCounter(c, u.id) == c;
    assert (us + [u, v])[..|us| + 1] == us + [u];
    assert (us + [u, v])[|us| + 1] == v;
    assert IdAt(us + [u, v], |us| + 1) == IdText(v.id, c);
  }

  // ---- units ----

  /** `m` with attribute `k` set to `v` when `c` holds, and unchanged otherwise. */
  function SetIf(m: Attrs, c: bool, k: string, v: Option<string>): Attrs
  {
    if c then m[k := v] else m
  }

  /** The `translate` attribute, set only for a unit that must not be translated. */
  function WithTranslate(m: Attrs, u: Unit): Attrs
  {
    SetIf(m, u.translate == Some(false), "translate", Some("false"))
  }

  function OrdinalValue(o: Option<nat>): Option<string>
  {
    if o.Some? then Some(NatToString(o.value)) else None
  }

  /** A plural unit's category: its quantity, or "other". */
  function Category(u: Unit): string
  {
    Or(u.quantity, "other")
  }

  function TargetNode(u: Unit): Node
  {
    Node("target", map["state" := u.state], [], u.target)
  }

  /** A `trans-unit` of a 1.2 document written with id `id`. */
  function TransUnit1(u: Unit, id: string): (r: Node)
    ensures r.name == "trans-unit"
    ensures "id" in r.attrs && r.attrs["id"] == Some(id)
    ensures "resname" in r.attrs && r.attrs["resname"] == EscapeAttr(u.key)
    ensures "restype" in r.attrs && r.attrs["restype"] == Some(Or(u.resType, "string"))
    ensures "translate" in r.attrs <==> u.translate == Some(false)
    ensures "translate" in r.attrs ==> r.attrs["translate"] == Some("false")
    ensures u.resType == Some("plural") ==> "extype" in r.attrs && r.attrs["extype"] == Some(Category(u))
    ensures u.resType == Some("array") ==> "extype" in r.attrs && r.attrs["extype"] == OrdinalValue(u.ordinal)
    ensures "extype" in r.attrs <==> u.resType == Some("plural") || u.resType == Some("array")
    ensures "x-context" in r.attrs <==> Truthy(u.context)
    ensures Names(r.children) ==
      ["source"] + (if Truthy(u.target) then ["target"] else []) + (if Truthy(u.comment) then ["note"] else [])
  {
    var base := map["id" := Some(id), "resname" := EscapeAttr(u.key),
                    "restype" := Some(Or(u.resType, "string")), "datatype" := u.dataType];
    var typed := SetIf(SetIf(WithTranslate(base, u), u.resType == Some("plural"), "extype", Some(Category(u))),
                       u.resType == Some("array"), "extype", OrdinalValue(u.ordinal));
    var attrs := SetIf(typed, Truthy(u.context), "x-context", u.context);
    var children := [Node("source", map[], [], u.source)]
      + (if Truthy(u.target) then [TargetNode(u)] else [])
      + (if Truthy(u.comment) then [Node("note", map[], [], u.comment)] else []);
    Node("trans-unit", attrs, children, None)
  }

  /** The `notes` and `segment` children shared by both 2.0 layouts. */
  function Children2(u: Unit): seq<Node>
  {
    (if Truthy(u.comment)
     then [Node("notes", map[], [Node("note", map["appliesTo" := Some("source")], [], u.comment)], None)]
     else [])
    + [Node("segment", map[], [Node("source", map[], [], u.source)]
                              + (if Truthy(u.target) then [TargetNode(u)] else []), None)]
  }

  /** The `name` attribute: the escaped key, unless the key equals the source. */
  function NameValue(u: Unit): Option<string>
  {
    if u.source != u.key then EscapeAttr(u.key) else None
  }

  /** A `unit` of a 2.0 document written with id `id`. */
  function Unit2(u: Unit, id: string): (r: Node)
    ensures r.name == "unit"
    ensures "id" in r.attrs && r.attrs["id"] == Some(id)
    ensures "name" in r.attrs && r.attrs["name"] == (if u.source == u.key then None else EscapeAttr(u.key))
    ensures "type" in r.attrs && r.attrs["type"] == Some("res:" + Or(u.resType, "string"))
    ensures "translate" in r.attrs <==> u.translate == Some(false)
    ensures "l:category" in r.attrs <==> u.resType == Some("plural")
    ensures "l:category" in r.attrs ==> r.attrs["l:category"] == Some(Category(u))
    ensures "l:index" in r.attrs <==> u.resType == Some("array")
    ensures "l:index" in r.attrs ==> r.attrs["l:index"] == OrdinalValue(u.ordinal)
    ensures "l:context" in r.attrs <==> Truthy(u.context)
    ensures Names(r.children) == (if Truthy(u.comment) then ["notes"] else []) + ["segment"]
  {
    var base := map["id" := Some(id), "name" := NameValue(u),
                    "type" := Some("res:" + Or(u.resType, "string")), "l:datatype" := u.dataType];
    var typed := SetIf(SetIf(WithTranslate(base, u), u.resType == Some("plural"), "l:category", Some(Category(u))),
                       u.resType == Some("array"), "l:index", OrdinalValue(u.ordinal));
    var attrs := SetIf(typed, Truthy(u.context), "l:context", u.context);
    Node("unit", attrs, Children2(u), None)
  }

  /** A `unit` of the customized layout: only id, name and translate. */
  function UnitCustom(u: Unit, id: string): (r: Node)
    ensures r.name == "unit"
    ensures "id" in r.attrs && r.attrs["id"] == Some(id)
    ensures "translate" in r.attrs <==> u.translate == Some(false)
    ensures r.attrs.Keys <= {"id", "name", "translate"}
    ensures Names(r.children) == (if Truthy(u.comment) then ["notes"] else []) + ["segment"]
  {
    Node("unit", WithTranslate(map["id" := Some(id), "name" := NameValue(u)], u), Children2(u), None)
  }

  // ---- files ----

  predicate HasTool(t: Tools)
  {
    Truthy(t.id) || Truthy(t.name) || Truthy(t.version) || Truthy(t.company)
  }

  /** The `header` element, present when any tool property is set. */
  function Header(t: Tools): seq<Node>
  {
    if HasTool(t) then
      [Node("header", map[], [Node("tool", map["tool-id" := t.id, "tool-name" := t.name,
                                              "tool-version" := t.version, "tool-company" := t.company,
                                              "copyright" := t.copyright], [], None)], None)]
    else []
  }

  /** The file keys of the units, in list order. */
  function FileKeys(us: seq<Unit>): (r: seq<string>)
    ensures |r| == |us|
    decreases |us|
  {
    if us == [] then [] else FileKeys(us[..|us| - 1]) + [MakeTUHashKey(us[|us| - 1])]
  }

  /** Each unit's file key sits at the unit's own position. */
  lemma {:induction false} FileKeysAt(us: seq<Unit>)
    ensures forall j :: 0 <= j < |us| ==> FileKeys(us)[j] == MakeTUHashKey(us[j])
    decreases |us|
  {
    if us != [] {
      FileKeysAt(us[..|us| - 1]);
    }
  }

  /** The first unit with file key `k`. */
  function FirstIn(us: seq<Unit>, k: string): (r: Option<Unit>)
    ensures r.Some? <==> k in FileKeys(us)
    ensures r.Some? ==> r.value in us && MakeTUHashKey(r.value) == k
    decreases |us|
  {
    if us == [] then None
    else
      var init := us[..|us| - 1];
      var f := FirstIn(init, k);
      assert FileKeys(us) == FileKeys(init) + [MakeTUHashKey(us[|us| - 1])];
      if f.Some? then f
      else if MakeTUHashKey(us[|us| - 1]) == k then Some(us[|us| - 1])
      else None
  }

  /** `FirstIn` finds the first unit with the key: no unit before it has it. */
  lemma {:induction false} FirstInIsFirst(us: seq<Unit>, k: string)
    ensures FirstIn(us, k).Some? ==> exists i :: 0 <= i < |us| && us[i] == FirstIn(us, k).value
                                                 && forall j :: 0 <= j < i ==> MakeTUHashKey(us[j]) != k
    decreases |us|
  {
    if us != [] {
      var init := us[..|us| - 1];
      FirstInIsFirst(init, k);
      assert forall j :: 0 <= j < |init| ==> us[j] == init[j];
      if FirstIn(init, k).None? && MakeTUHashKey(us[|us| - 1]) == k {
        FileKeysAt(init);
        assert forall j :: 0 <= j < |init| ==> FileKeys(init)[j] != k;
        assert us[|us| - 1] == FirstIn(us, k).value;
      }
    }
  }

  /** The `trans-unit` elements of file `k`, in list order. */
  function TransUnits1(us: seq<Unit>, k: string): seq<Node>
    decreases |us|
  {
    if us == [] then []
    else
      var init := us[..|us| - 1];
      var u := us[|us| - 1];
      TransUnits1(init, k)
      + (if MakeTUHashKey(u) == k then [TransUnit1(u, IdText(u.id, CounterAfter(init)))] else [])
  }

  /** The attributes of a 1.2 `file` element, taken from the first unit
      written into it. */
  function FileAttrs1(first: Unit): Attrs
  {
    map["original" := first.file, "source-language" := first.sourceLocale,
        "target-language" := first.targetLocale, "product-name" := first.project,
        "x-flavor" := first.flavor]
  }

  /** A 1.2 `file` element: its attributes, the header and the body. */
  function File1(t: Tools, attrs: Attrs, units: seq<Node>): Node
  {
    Node("file", attrs, Header(t) + [Node("body", map[], units, None)], None)
  }

  /** The 1.2 `file` element of key `k`, made from the key's first unit
      and holding the elements of all its units. */
  function FileOf1(t: Tools, us: seq<Unit>, k: string): Node
  {
    var first := FirstIn(us, k);
    File1(t, if first.Some? then FileAttrs1(first.value) else map[], TransUnits1(us, k))
  }

  /** The files in the order of `ks`. */
  function Files1(t: Tools, us: seq<Unit>, ks: seq<string>): (r: seq<Node>)
    ensures |r| == |ks|
    decreases |ks|
  {
    if ks == [] then [] else Files1(t, us, ks[..|ks| - 1]) + [FileOf1(t, us, ks[|ks| - 1])]
  }

  /** The file keys in the order files are written: ascending. */
  function SortedKeys(ks: seq<string>): (r: seq<string>)
    ensures Ascending(r)
    ensures forall k :: k in r <==> k in ks
  {
    Sort(Distinct(ks))
  }

  /** `toString1()` as a tree: one file per file key, in ascending key order,
      each holding its units in list order with ids from one counter. */
  function Tree1(v: Version, t: Tools, us: seq<Unit>): Node
  {
    Node("xliff", map["version" := Some(VersionString(v))],
         Files1(t, us, SortedKeys(FileKeys(us))), None)
  }

  /** Files come out in ascending key order whatever order the units were
      added in: two unit lists with the same file keys give the same order. */
  lemma FileOrderIndependent(a: seq<Unit>, b: seq<Unit>)
    requires forall k :: k in FileKeys(a) <==> k in FileKeys(b)
    ensures SortedKeys(FileKeys(a)) == SortedKeys(FileKeys(b))
  {
    AscendingUnique(SortedKeys(FileKeys(a)), SortedKeys(FileKeys(b)));
  }

  /** A 1.2 document has one file element per distinct file key. */
  lemma Tree1FileCount(v: Version, t: Tools, us: seq<Unit>)
    ensures |Tree1(v, t, us).children| == |Distinct(FileKeys(us))|
  {
  }

  /** Every unit is written to the file of its key, and a file holds exactly
      as many units as share its key. */
  lemma {:induction false} TransUnits1Count(us: seq<Unit>, k: string)
    ensures |TransUnits1(us, k)| == |Filtered(FileKeys(us), k)|
    decreases |us|
  {
    if us != [] {
      var init := us[..|us| - 1];
      TransUnits1Count(init, k);
      assert FileKeys(us) == FileKeys(init) + [MakeTUHashKey(us[|us| - 1])];
      FilteredSnoc(FileKeys(init), MakeTUHashKey(us[|us| - 1]), k);
    }
  }

  /** The elements of `s` equal to `k`. */
  function Filtered(s: seq<string>, k: string): seq<string>
    decreases |s|
  {
    if s == [] then [] else Filtered(s[..|s| - 1], k) + (if s[|s| - 1] == k then [k] else [])
  }

  lemma FilteredSnoc(s: seq<string>, x: string, k: string)
    ensures Filtered(s + [x], k) == Filtered(s, k) + (if x == k then [k] else [])
  {
    assert (s + [x])[..|s|] == s;
  }

  // ---- 2.0 documents ----

  /** The two 2.0 layouts: the standard one and the customized one. */
  datatype Layout = Standard | Custom

  /** The units a 2.0 writer keeps: those with the first unit's source
      locale and, when the first unit has a target locale, its target locale. */
  function Selected(us: seq<Unit>, sl: Option<string>, tl: Option<string>): (r: seq<Unit>)
    ensures forall u :: u in r <==> u in us && u.sourceLocale == sl && (!Truthy(tl) || u.targetLocale == tl)
    ensures |r| <= |us|
    decreases |us|
  {
    if us == [] then []
    else
      var init := us[..|us| - 1];
      var u := us[|us| - 1];
      assert forall x :: x in us <==> x in init || x == u;
      Selected(init, sl, tl) + (if u.sourceLocale == sl && (!Truthy(tl) || u.targetLocale == tl) then [u] else [])
  }

  /** `project + ""` in JavaScript: an undefined project reads "undefined". */
  function JsText(o: Option<string>): string
  {
    if o.Some? then o.value else "undefined"
  }

  /** The file a 2.0 writer puts a unit in. */
  function FileKey2(l: Layout, u: Unit): string
  {
    match l
    case Standard => MakeTUHashKey(u)
    case Custom => JsText(u.project)
  }

  /** The group a 2.0 writer puts a unit in within its file. */
  function GroupName(l: Layout, u: Unit): string
  {
    match l
    case Standard => Or(u.dataType, "plaintext")
    case Custom => Or(u.dataType, "javascript")
  }

  function UnitNode(l: Layout, u: Unit, id: string): Node
  {
    match l
    case Standard => Unit2(u, id)
    case Custom => UnitCustom(u, id)
  }

  function Keys2(l: Layout, us: seq<Unit>): (r: seq<string>)
    ensures |r| == |us|
    decreases |us|
  {
    if us == [] then [] else Keys2(l, us[..|us| - 1]) + [FileKey2(l, us[|us| - 1])]
  }

  /** The (file, group) pair of every unit, in list order. */
  function Pairs(l: Layout, us: seq<Unit>): (r: seq<(string, string)>)
    ensures |r| == |us|
    decreases |us|
  {
    if us == [] then [] else Pairs(l, us[..|us| - 1]) + [(FileKey2(l, us[|us| - 1]), GroupName(l, us[|us| - 1]))]
  }

  /** The group names of file `k`, in list order, with repeats. */
  function GroupNamesIn(l: Layout, us: seq<Unit>, k: string): (r: seq<string>)
    ensures forall n :: n in r <==> (k, n) in Pairs(l, us)
    decreases |us|
  {
    if us == [] then []
    else
      var init := us[..|us| - 1];
      var u := us[|us| - 1];
      assert Pairs(l, us) == Pairs(l, init) + [(FileKey2(l, u), GroupName(l, u))];
      GroupNamesIn(l, init, k) + (if FileKey2(l, u) == k then [GroupName(l, u)] else [])
  }

  /** The number of group (`k`, `n`): groups are numbered from 1 in the order
      they are first needed, across all files. */
  function GroupNumber(l: Layout, us: seq<Unit>, k: string, n: string): (r: nat)
    ensures (k, n) in Pairs(l, us) <==> 1 <= r
    ensures r <= |Distinct(Pairs(l, us))|
  {
    var d := Distinct(Pairs(l, us));
    if (k, n) in d then IndexOf(d, (k, n)) + 1 else 0
  }

  /** The number of file `k` in the customized layout: files are numbered
      from 1 in the order they are first needed. */
  function FileNumber(l: Layout, us: seq<Unit>, k: string): (r: nat)
    requires k in Keys2(l, us)
    ensures 1 <= r <= |Distinct(Keys2(l, us))|
  {
    IndexOf(Distinct(Keys2(l, us)), k) + 1
  }

  /** The `unit` elements of group `n` in file `k`, in list order. */
  function GroupUnits(l: Layout, us: seq<Unit>, k: string, n: string): seq<Node>
    decreases |us|
  {
    if us == [] then []
    else
      var init := us[..|us| - 1];
      var u := us[|us| - 1];
      GroupUnits(l, init, k, n)
      + (if FileKey2(l, u) == k && GroupName(l, u) == n
         then [UnitNode(l, u, IdText(u.id, CounterAfter(init)))] else [])
  }

  function GroupId(l: Layout, k: string, number: nat): string
  {
    match l
    case Standard => "group_" + NatToString(number)
    case Custom => k + "_g" + NatToString(number)
  }

  /** A group as it is created: its id and name, and no units yet. */
  function GroupShell(l: Layout, k: string, number: nat, n: string): Node
  {
    Node("group", map["id" := Some(GroupId(l, k, number)), "name" := Some(n)], [], None)
  }

  /** Group `n` of file `k`: its number and name, and its units. */
  function GroupNode(l: Layout, us: seq<Unit>, k: string, n: string): (r: Node)
    ensures "name" in r.attrs && r.attrs["name"] == Some(n)
  {
    GroupShell(l, k, GroupNumber(l, us, k, n), n).(children := GroupUnits(l, us, k, n))
  }

  /** The groups of file `k` for the names `ns`, in the order of `ns`. */
  function Groups(l: Layout, us: seq<Unit>, k: string, ns: seq<string>): (r: seq<Node>)
    ensures |r| == |ns|
    decreases |ns|
  {
    if ns == [] then []
    else Groups(l, us, k, ns[..|ns| - 1]) + [GroupNode(l, us, k, ns[|ns| - 1])]
  }

  /** Each unit's 2.0 file key sits at the unit's own position. */
  lemma {:induction false} Keys2At(l: Layout, us: seq<Unit>)
    ensures forall j :: 0 <= j < |us| ==> Keys2(l, us)[j] == FileKey2(l, us[j])
    decreases |us|
  {
    if us != [] {
      Keys2At(l, us[..|us| - 1]);
    }
  }

  /** The first unit written into file `k`. */
  function First2(l: Layout, us: seq<Unit>, k: string): (r: Unit)
    requires k in Keys2(l, us)
    ensures r in us && FileKey2(l, r) == k
    decreases |us|
  {
    var init := us[..|us| - 1];
    var u := us[|us| - 1];
    assert Keys2(l, us) == Keys2(l, init) + [FileKey2(l, u)];
    if k in Keys2(l, init) then First2(l, init, k) else u
  }

  /** `First2` finds the first unit of the file: no unit before it belongs
      to it. */
  lemma {:induction false} First2IsFirst(l: Layout, us: seq<Unit>, k: string)
    requires k in Keys2(l, us)
    ensures exists i :: 0 <= i < |us| && us[i] == First2(l, us, k)
                        && forall j :: 0 <= j < i ==> FileKey2(l, us[j]) != k
    decreases |us|
  {
    var init := us[..|us| - 1];
    assert Keys2(l, us) == Keys2(l, init) + [FileKey2(l, us[|us| - 1])];
    if k in Keys2(l, init) {
      First2IsFirst(l, init, k);
      var i :| 0 <= i < |init| && init[i] == First2(l, init, k)
               && forall j :: 0 <= j < i ==> FileKey2(l, init[j]) != k;
      assert us[i] == First2(l, us, k);
      assert forall j :: 0 <= j < i ==> us[j] == init[j];
    } else {
      NotInKeys2(l, init, k);
    }
  }

  /** A key missing from `Keys2(l, us)` is the key of no unit of `us`. */
  lemma NotInKeys2(l: Layout, us: seq<Unit>, k: string)
    requires k !in Keys2(l, us)
    ensures forall j :: 0 <= j < |us| ==> FileKey2(l, us[j]) != k
  {
    Keys2At(l, us);
  }

  /** The attributes a 2.0 `file` element gets when it is created for its
      first unit `first`: in the customized layout an id made of the file's
      key and its number. */
  function FileShellAttrs(l: Layout, first: Unit, k: string, number: nat): Attrs
  {
    match l
    case Standard => map["original" := first.file, "l:project" := first.project, "l:flavor" := first.flavor]
    case Custom => map["id" := Some(k + "_f" + NatToString(number)), "original" := first.project]
  }

  /** The attributes of file `k`: those of its creation for its first unit,
      numbered by order of creation. */
  function FileAttrs2(l: Layout, us: seq<Unit>, k: string): Attrs
    requires k in Keys2(l, us)
  {
    FileShellAttrs(l, First2(l, us, k), k, FileNumber(l, us, k))
  }

  /** The groups of file `k`, in the order they were first needed. */
  function GroupsOf(l: Layout, us: seq<Unit>, k: string): (r: seq<Node>)
    ensures |r| == |Distinct(GroupNamesIn(l, us, k))|
  {
    Groups(l, us, k, Distinct(GroupNamesIn(l, us, k)))
  }

  /** A 2.0 `file` element: its groups, then (standard layout) the header. */
  function File2(l: Layout, t: Tools, us: seq<Unit>, k: string): Node
    requires k in Keys2(l, us)
  {
    Node("file", FileAttrs2(l, us, k), GroupsOf(l, us, k) + (if l == Standard then Header(t) else []), None)
  }

  function Files2(l: Layout, t: Tools, us: seq<Unit>, ks: seq<string>): (r: seq<Node>)
    requires forall i :: 0 <= i < |ks| ==> ks[i] in Keys2(l, us)
    ensures |r| == |ks|
    decreases |ks|
  {
    if ks == [] then [] else Files2(l, t, us, ks[..|ks| - 1]) + [File2(l, t, us, ks[|ks| - 1])]
  }

  /** The root attributes of a 2.0 document. */
  function Root2Attrs(v: Version, first: Unit): Attrs
  {
    map["version" := Some(VersionString(v)), "srcLang" := first.sourceLocale]
    + (if Truthy(first.targetLocale) then map["trgLang" := first.targetLocale] else map[])
    + map["xmlns:l" := Some("http://ilib-js.com/loctool")]
  }

  /** `toString2()` / `toStringCustom()` as a tree: the units matching the
      first unit's locales, bucketed by file key (ascending) and by group
      name (in order of first need). */
  function Tree2(l: Layout, v: Version, t: Tools, us: seq<Unit>): Node
    requires us != []
  {
    var sel := Selected(us, us[0].sourceLocale, us[0].targetLocale);
    Node("xliff", Root2Attrs(v, us[0]), Files2(l, t, sel, SortedKeys(Keys2(l, sel))), None)
  }

  /** The first unit always passes the locale filter, so a 2.0 document of a
      non-empty list has at least one file. */
  lemma Tree2NotEmpty(l: Layout, v: Version, t: Tools, us: seq<Unit>)
    requires us != []
    ensures |Tree2(l, v, t, us).children| >= 1
  {
    var sel := Selected(us, us[0].sourceLocale, us[0].targetLocale);
    assert us[0] in sel;
    var i :| 0 <= i < |sel| && sel[i] == us[0];
    assert Keys2(l, sel)[i] in SortedKeys(Keys2(l, sel));
  }

  /** Group numbers are shared by all files: two different (file, group)
      pairs never get the same number, so no two groups share an id. */
  lemma GroupNumbersDistinct(l: Layout, us: seq<Unit>, p: (string, string), q: (string, string))
    requires p in Pairs(l, us) && q in Pairs(l, us) && p != q
    ensures GroupNumber(l, us, p.0, p.1) != GroupNumber(l, us, q.0, q.1)
  {
  }

  /** Standard group ids are distinct across the whole document. */
  lemma GroupIdsDistinct(us: seq<Unit>, p: (string, string), q: (string, string))
    requires p in Pairs(Standard, us) && q in Pairs(Standard, us) && p != q
    ensures GroupId(Standard, p.0, GroupNumber(Standard, us, p.0, p.1))
         != GroupId(Standard, q.0, GroupNumber(Standard, us, q.0, q.1))
  {
    var a, b := GroupNumber(Standard, us, p.0, p.1), GroupNumber(Standard, us, q.0, q.1);
    GroupNumbersDistinct(Standard, us, p, q);
    if "group_" + NatToString(a) == "group_" + NatToString(b) {
      assert NatToString(a) == ("group_" + NatToString(a))[6..];
      assert NatToString(b) == ("group_" + NatToString(b))[6..];
      NatToStringInjective(a, b);
    }
  }

  /** Within a file each group name is used by exactly one group. */
  lemma GroupNamesOnce(l: Layout, us: seq<Unit>, k: string)
    ensures var ns := Distinct(GroupNamesIn(l, us, k));
            forall i, j :: 0 <= i < j < |ns| ==> ns[i] != ns[j]
  {
  }

  /** The first unit's group is the group numbered 1, and its file's groups
      start with it. */
  lemma FirstGroupIsOne(l: Layout, us: seq<Unit>)
    requires us != []
    ensures (FileKey2(l, us[0]), GroupName(l, us[0])) in Pairs(l, us)
    ensures GroupNumber(l, us, FileKey2(l, us[0]), GroupName(l, us[0])) == 1
  {
    DistinctHead(Pairs(l, us));
  }

  // ---- one unit more ----

  /** The element written for unit `u` after the units `us`, in 1.2. */
  function NextUnit1(us: seq<Unit>, u: Unit): Node
  {
    TransUnit1(u, IdText(u.id, CounterAfter(us)))
  }

  /** The element written for unit `u` after the units `us`, in 2.0. */
  function NextUnit2(l: Layout, us: seq<Unit>, u: Unit): Node
  {
    UnitNode(l, u, IdText(u.id, CounterAfter(us)))
  }

  /** A group with one more unit. */
  function WithUnit(g: Node, unit: Node): (r: Node)
    ensures r.name == g.name && r.attrs == g.attrs && r.children == g.children + [unit]
  {
    g.(children := g.children + [unit])
  }

  /** The counter after one more unit. */
  lemma CounterSnoc(us: seq<Unit>, u: Unit)
    ensures CounterAfter(us + [u]) == NextCounter(CounterAfter(us), u.id)
  {
    assert (us + [u])[..|us|] == us;
  }

  /** The 1.2 buckets after one more unit: its key joins the keys, its
      element joins its file, and the first unit of every other file stays. */
  lemma Snoc1(us: seq<Unit>, u: Unit, k: string)
    ensures FileKeys(us + [u]) == FileKeys(us) + [MakeTUHashKey(u)]
    ensures TransUnits1(us + [u], k)
            == TransUnits1(us, k) + (if MakeTUHashKey(u) == k then [NextUnit1(us, u)] else [])
    ensures k in FileKeys(us) ==> FirstIn(us + [u], k) == FirstIn(us, k)
    ensures k !in FileKeys(us) && k == MakeTUHashKey(u) ==> FirstIn(us + [u], k) == Some(u)
  {
    assert (us + [u])[..|us|] == us;
  }

  /** The group names of a file after one more unit. */
  lemma GroupNamesInSnoc(l: Layout, us: seq<Unit>, u: Unit, k: string)
    ensures GroupNamesIn(l, us + [u], k)
            == GroupNamesIn(l, us, k) + (if FileKey2(l, u) == k then [GroupName(l, u)] else [])
  {
    assert (us + [u])[..|us|] == us;
  }

  /** The units of a group after one more unit. */
  lemma GroupUnitsSnoc(l: Layout, us: seq<Unit>, u: Unit, k: string, n: string)
    ensures GroupUnits(l, us + [u], k, n)
            == GroupUnits(l, us, k, n) + (if FileKey2(l, u) == k && GroupName(l, u) == n then [NextUnit2(l, us, u)] else [])
  {
    assert (us + [u])[..|us|] == us;
  }

  /** A group that has no pair yet has no units. */
  lemma {:induction false} GroupUnitsEmpty(l: Layout, us: seq<Unit>, k: string, n: string)
    requires (k, n) !in Pairs(l, us)
    ensures GroupUnits(l, us, k, n) == []
    decreases |us|
  {
    if us != [] {
      var init := us[..|us| - 1];
      assert Pairs(l, us) == Pairs(l, init) + [(FileKey2(l, us[|us| - 1]), GroupName(l, us[|us| - 1]))];
      GroupUnitsEmpty(l, init, k, n);
    }
  }

  /** Existing groups keep their numbers when a unit is added. */
  lemma GroupNumberSnoc(l: Layout, us: seq<Unit>, u: Unit, k: string, n: string)
    requires (k, n) in Pairs(l, us)
    ensures (k, n) in Pairs(l, us + [u]) && GroupNumber(l, us + [u], k, n) == GroupNumber(l, us, k, n)
  {
    var ps := Pairs(l, us);
    var p := (FileKey2(l, u), GroupName(l, u));
    PairsSnoc(l, us, u);
    DistinctSnoc(ps, p);
    if p !in ps {
      IndexOfAppend(Distinct(ps), p, (k, n));
    }
  }

  lemma PairsSnoc(l: Layout, us: seq<Unit>, u: Unit)
    ensures Pairs(l, us + [u]) == Pairs(l, us) + [(FileKey2(l, u), GroupName(l, u))]
  {
    assert (us + [u])[..|us|] == us;
  }

  lemma Keys2Snoc(l: Layout, us: seq<Unit>, u: Unit)
    ensures Keys2(l, us + [u]) == Keys2(l, us) + [FileKey2(l, u)]
  {
    assert (us + [u])[..|us|] == us;
  }

  /** A new group gets the next number. */
  lemma GroupNumberNew(l: Layout, us: seq<Unit>, u: Unit)
    requires (FileKey2(l, u), GroupName(l, u)) !in Pairs(l, us)
    ensures (FileKey2(l, u), GroupName(l, u)) in Pairs(l, us + [u])
    ensures GroupNumber(l, us + [u], FileKey2(l, u), GroupName(l, u)) == |Distinct(Pairs(l, us))| + 1
  {
    var p := (FileKey2(l, u), GroupName(l, u));
    PairsSnoc(l, us, u);
    DistinctSnoc(Pairs(l, us), p);
    IndexOfLast(Distinct(Pairs(l, us)), p);
  }

  /** Existing files keep their attributes when a unit is added. */
  lemma FileAttrs2Snoc(l: Layout, us: seq<Unit>, u: Unit, k: string)
    requires k in Keys2(l, us)
    ensures k in Keys2(l, us + [u]) && FileAttrs2(l, us + [u], k) == FileAttrs2(l, us, k)
  {
    FileNumberSnoc(l, us, u, k);
    First2Snoc(l, us, u, k);
  }

  lemma FileNumberSnoc(l: Layout, us: seq<Unit>, u: Unit, k: string)
    requires k in Keys2(l, us)
    ensures k in Keys2(l, us + [u]) && FileNumber(l, us + [u], k) == FileNumber(l, us, k)
  {
    var ks := Keys2(l, us);
    var k' := FileKey2(l, u);
    Keys2Snoc(l, us, u);
    DistinctSnoc(ks, k');
    if k' !in ks {
      IndexOfAppend(Distinct(ks), k', k);
    }
  }

  lemma FileNumberNew(l: Layout, us: seq<Unit>, u: Unit)
    requires FileKey2(l, u) !in Keys2(l, us)
    ensures FileKey2(l, u) in Keys2(l, us + [u])
    ensures FileNumber(l, us + [u], FileKey2(l, u)) == |Distinct(Keys2(l, us))| + 1
  {
    var ks := Keys2(l, us);
    var k := FileKey2(l, u);
    Keys2Snoc(l, us, u);
    DistinctSnoc(ks, k);
    IndexOfLast(Distinct(ks), k);
  }

  lemma First2Snoc(l: Layout, us: seq<Unit>, u: Unit, k: string)
    requires k in Keys2(l, us) || k == FileKey2(l, u)
    ensures k in Keys2(l, us + [u])
    ensures First2(l, us + [u], k) == if k in Keys2(l, us) then First2(l, us, k) else u
  {
    assert (us + [u])[..|us|] == us;
    Keys2Snoc(l, us, u);
  }

  /** A new file is created for `u`, with the next file number. */
  lemma FileAttrs2New(l: Layout, us: seq<Unit>, u: Unit)
    requires FileKey2(l, u) !in Keys2(l, us)
    ensures FileKey2(l, u) in Keys2(l, us + [u])
    ensures FileAttrs2(l, us + [u], FileKey2(l, u))
            == FileShellAttrs(l, u, FileKey2(l, u), |Distinct(Keys2(l, us))| + 1)
  {
    FileNumberNew(l, us, u);
    First2Snoc(l, us, u, FileKey2(l, u));
  }

  /** `Groups` is the group of each name, position by position. */
  lemma {:induction false} GroupsPointwise(l: Layout, us: seq<Unit>, k: string, ns: seq<string>)
    ensures forall j :: 0 <= j < |ns| ==> Groups(l, us, k, ns)[j] == GroupNode(l, us, k, ns[j])
    decreases |ns|
  {
    if ns != [] {
      var init := ns[..|ns| - 1];
      var gs := Groups(l, us, k, ns);
      assert gs == Groups(l, us, k, init) + [GroupNode(l, us, k, ns[|ns| - 1])];
      GroupsPointwise(l, us, k, init);
      forall j | 0 <= j < |ns| ensures gs[j] == GroupNode(l, us, k, ns[j]) {
        if j < |init| {
          assert init[j] == ns[j];
        }
      }
    }
  }

  /** A file with no unit yet has no groups. */
  lemma {:induction false} GroupNamesAbsent(l: Layout, us: seq<Unit>, k: string)
    requires k !in Keys2(l, us)
    ensures GroupNamesIn(l, us, k) == [] && GroupsOf(l, us, k) == []
    decreases |us|
  {
    if us != [] {
      var init := us[..|us| - 1];
      Keys2Snoc(l, init, us[|us| - 1]);
      assert us == init + [us[|us| - 1]];
      GroupNamesAbsent(l, init, k);
    }
  }

  /** One group after one more unit: the unit's own group gains its
      element, every other group is unchanged. */
  lemma GroupNodeSnoc(l: Layout, us: seq<Unit>, u: Unit, k: string, n: string)
    requires (k, n) in Pairs(l, us)
    ensures (k, n) in Pairs(l, us + [u])
    ensures GroupNode(l, us + [u], k, n)
            == if k == FileKey2(l, u) && n == GroupName(l, u)
               then WithUnit(GroupNode(l, us, k, n), NextUnit2(l, us, u))
               else GroupNode(l, us, k, n)
  {
    GroupUnitsSnoc(l, us, u, k, n);
    GroupNumberSnoc(l, us, u, k, n);
  }

  /** A new group holds just the unit that needed it. */
  lemma GroupNodeNew(l: Layout, us: seq<Unit>, u: Unit)
    requires (FileKey2(l, u), GroupName(l, u)) !in Pairs(l, us)
    ensures (FileKey2(l, u), GroupName(l, u)) in Pairs(l, us + [u])
    ensures GroupNode(l, us + [u], FileKey2(l, u), GroupName(l, u))
            == WithUnit(GroupShell(l, FileKey2(l, u), |Distinct(Pairs(l, us))| + 1, GroupName(l, u)), NextUnit2(l, us, u))
  {
    var k, n := FileKey2(l, u), GroupName(l, u);
    GroupUnitsSnoc(l, us, u, k, n);
    GroupNumberNew(l, us, u);
    GroupUnitsEmpty(l, us, k, n);
  }

  /** The groups of another file do not change when a unit is added. */
  lemma GroupsOfOther(l: Layout, us: seq<Unit>, u: Unit, k: string)
    requires k != FileKey2(l, u)
    ensures GroupsOf(l, us + [u], k) == GroupsOf(l, us, k)
  {
    GroupNamesInSnoc(l, us, u, k);
    var ns := Distinct(GroupNamesIn(l, us, k));
    assert GroupNamesIn(l, us + [u], k) == GroupNamesIn(l, us, k);
    GroupsPointwise(l, us, k, ns);
    GroupsPointwise(l, us + [u], k, ns);
    forall j | 0 <= j < |ns| ensures GroupsOf(l, us + [u], k)[j] == GroupsOf(l, us, k)[j] {
      assert ns[j] in GroupNamesIn(l, us, k);
      GroupNodeSnoc(l, us, u, k, ns[j]);
    }
  }

  /** Group `j` of file `k` after one more unit, for the group names
      the file already had. */
  lemma GroupAtSnoc(l: Layout, us: seq<Unit>, u: Unit, k: string, j: nat)
    requires j < |Distinct(GroupNamesIn(l, us, k))|
    ensures var ns := Distinct(GroupNamesIn(l, us, k));
            Groups(l, us + [u], k, ns)[j]
            == if k == FileKey2(l, u) && ns[j] == GroupName(l, u)
               then WithUnit(GroupsOf(l, us, k)[j], NextUnit2(l, us, u))
               else GroupsOf(l, us, k)[j]
  {
    var ns := Distinct(GroupNamesIn(l, us, k));
    GroupsPointwise(l, us, k, ns);
    GroupsPointwise(l, us + [u], k, ns);
    assert ns[j] in GroupNamesIn(l, us, k);
    GroupNodeSnoc(l, us, u, k, ns[j]);
  }

  /** Group `j` for a list of names of file `k` after one more unit of
      that file: the group named like the unit gains its element. */
  lemma GroupGrowsAt(l: Layout, us: seq<Unit>, u: Unit, ns: seq<string>, j: nat)
    requires j < |ns| && ns[j] in GroupNamesIn(l, us, FileKey2(l, u))
    ensures var k := FileKey2(l, u);
            var g := Groups(l, us, k, ns)[j];
            Groups(l, us + [u], k, ns)[j] == if ns[j] == GroupName(l, u) then WithUnit(g, NextUnit2(l, us, u)) else g
  {
    var k := FileKey2(l, u);
    GroupsPointwise(l, us, k, ns);
    GroupsPointwise(l, us + [u], k, ns);
    GroupNodeSnoc(l, us, u, k, ns[j]);
  }

  /** The groups for a list of distinct names of file `k` after one more
      unit of that file: the group named like the unit gains its element. */
  lemma GroupsGrow(l: Layout, us: seq<Unit>, u: Unit, ns: seq<string>, i: nat)
    requires i < |ns| && ns[i] == GroupName(l, u)
    requires forall j :: 0 <= j < |ns| ==> ns[j] in GroupNamesIn(l, us, FileKey2(l, u))
    requires forall j :: 0 <= j < |ns| && j != i ==> ns[j] != ns[i]
    ensures var k := FileKey2(l, u);
            var gs := Groups(l, us, k, ns);
            Groups(l, us + [u], k, ns) == gs[i := WithUnit(gs[i], NextUnit2(l, us, u))]
  {
    var k := FileKey2(l, u);
    var gs, gs' := Groups(l, us, k, ns), Groups(l, us + [u], k, ns);
    var w := WithUnit(gs[i], NextUnit2(l, us, u));
    forall j | 0 <= j < |ns| && j != i ensures gs'[j] == gs[j] {
      GroupGrowsAt(l, us, u, ns, j);
    }
    GroupGrowsAt(l, us, u, ns, i);
    assert |gs'| == |gs| && gs'[i] == w;
    assert forall j :: 0 <= j < |gs| && j != i ==> gs'[j] == gs[j];
    Updated(gs, gs', i, w);
  }

  /** When the unit's file already has a group of its name, that group
      gains the unit's element and the others stay. */
  lemma GroupsOfGrow(l: Layout, us: seq<Unit>, u: Unit)
    requires GroupName(l, u) in Distinct(GroupNamesIn(l, us, FileKey2(l, u)))
    ensures var k := FileKey2(l, u);
            var i := IndexOf(Distinct(GroupNamesIn(l, us, k)), GroupName(l, u));
            GroupsOf(l, us + [u], k) == GroupsOf(l, us, k)[i := WithUnit(GroupsOf(l, us, k)[i], NextUnit2(l, us, u))]
  {
    var k, n := FileKey2(l, u), GroupName(l, u);
    var names := GroupNamesIn(l, us, k);
    GroupNamesInSnoc(l, us, u, k);
    DistinctSnoc(names, n);
    var ns := Distinct(names);
    assert Distinct(GroupNamesIn(l, us + [u], k)) == ns;
    GroupsGrow(l, us, u, ns, IndexOf(ns, n));
  }

  /** When the unit's file has no group of its name, a new group with the
      next number is appended, holding just the unit's element. */
  lemma GroupsOfNew(l: Layout, us: seq<Unit>, u: Unit)
    requires GroupName(l, u) !in Distinct(GroupNamesIn(l, us, FileKey2(l, u)))
    ensures var k := FileKey2(l, u);
            GroupsOf(l, us + [u], k) == GroupsOf(l, us, k)
              + [WithUnit(GroupShell(l, k, |Distinct(Pairs(l, us))| + 1, GroupName(l, u)), NextUnit2(l, us, u))]
  {
    var k, n := FileKey2(l, u), GroupName(l, u);
    GroupNamesInSnoc(l, us, u, k);
    var ns := Distinct(GroupNamesIn(l, us, k));
    DistinctSnoc(GroupNamesIn(l, us, k), n);
    assert Distinct(GroupNamesIn(l, us + [u], k)) == ns + [n];
    var gs := Groups(l, us + [u], k, ns);
    GroupsPointwise(l, us, k, ns);
    GroupsPointwise(l, us + [u], k, ns);
    forall j | 0 <= j < |ns| ensures gs[j] == GroupsOf(l, us, k)[j] {
      assert ns[j] in GroupNamesIn(l, us, k) && ns[j] != n;
      GroupNodeSnoc(l, us, u, k, ns[j]);
    }
    assert gs == GroupsOf(l, us, k);
    assert (ns + [n])[..|ns|] == ns;
    assert GroupsOf(l, us + [u], k) == gs + [GroupNode(l, us + [u], k, n)];
    assert (k, n) !in Pairs(l, us);
    GroupNodeNew(l, us, u);
  }

  /** The group at position `j` of a file carries the `j`-th group name, so
      a search by name finds the unit's group. */
  lemma GroupsOfNames(l: Layout, us: seq<Unit>, k: string)
    ensures var ns := Distinct(GroupNamesIn(l, us, k));
            forall j :: 0 <= j < |ns| ==>
              "name" in GroupsOf(l, us, k)[j].attrs && GroupsOf(l, us, k)[j].attrs["name"] == Some(ns[j])
  {
    GroupsPointwise(l, us, k, Distinct(GroupNamesIn(l, us, k)));
  }
}
