/** The unit list and its key index as values, and the upsert rule that adds
    one unit: upgrade a source-only unit, merge into an indexed unit, or
    append (refusing a second target locale in a 2.x document). */
module Store {
  import opened Basics
  import opened TranslationUnits
  import opened Keys

  /** The settings the upsert reads: whether the document is 2.x or later,
      whether duplicates are kept, and the document's source locale. */
  datatype Config = Config(v2: bool, allowDups: bool, docLocale: Option<string>)

  /** The unit list `tu` and the index `tuhash`, which maps a key to the
      position of the unit stored under it. */
  datatype Store = Store(units: seq<Unit>, index: map<string, nat>)

  /** What adding several units leaves behind: the store after the units
      added before any failure, and the failure if there was one. */
  datatype Outcome = Outcome(store: Store, thrown: Option<string>)

  const MismatchedTargetLocale := "Mismatched target locale"

  /** Every indexed key names a unit of the list. */
  predicate ValidIndex(s: Store)
  {
    forall k :: k in s.index ==> s.index[k] < |s.units|
  }

  function Pick<T>(newer: Option<T>, older: Option<T>): Option<T>
  {
    if newer.Some? then newer else older
  }

  /** Copying the defined properties of `newer` onto `older`: every property
      `newer` defines wins, every other keeps its old value. */
  function Overwrite(older: Unit, newer: Unit): Unit
  {
    Unit(Pick(newer.source, older.source), Pick(newer.sourceLocale, older.sourceLocale),
         Pick(newer.key, older.key), Pick(newer.file, older.file),
         Pick(newer.project, older.project), Pick(newer.target, older.target),
         Pick(newer.targetLocale, older.targetLocale), Pick(newer.resType, older.resType),
         Pick(newer.state, older.state), Pick(newer.comment, older.comment),
         Pick(newer.dataType, older.dataType), Pick(newer.flavor, older.flavor),
         Pick(newer.context, older.context), Pick(newer.translate, older.translate),
         Pick(newer.ordinal, older.ordinal), Pick(newer.quantity, older.quantity),
         Pick(newer.id, older.id), Pick(newer.location, older.location))
  }

  /** The branch `addTranslationUnit` takes. */
  datatype Branch = Upgrade(at: nat) | Merge(at: nat) | Mismatch | Append

  function Route(c: Config, s: Store, u: Unit): Branch
  {
    var ks, kt := SourceKey(u, c.docLocale), TargetKey(u, c.docLocale);
    if Truthy(u.targetLocale) && ks in s.index then Upgrade(s.index[ks])
    else if kt in s.index && !c.allowDups then Merge(s.index[kt])
    else if c.v2 && |s.units| > 0 && s.units[0].targetLocale != u.targetLocale then Mismatch
    else Append
  }

  /** `addTranslationUnit(unit)`. */
  function Add(c: Config, s: Store, u: Unit): (r: Result<Store, string>)
    requires ValidIndex(s)
    ensures r.Ok? ==> ValidIndex(r.value)
    ensures r.Err? <==> Route(c, s, u) == Mismatch
    ensures r.Err? ==> r.error == MismatchedTargetLocale
  {
    var kt := TargetKey(u, c.docLocale);
    match Route(c, s, u)
    case Upgrade(p) =>
      Ok(Store(s.units[p := Overwrite(s.units[p], u)],
               (s.index - {SourceKey(u, c.docLocale)})[kt := p]))
    case Merge(p) =>
      Ok(Store(s.units[p := Overwrite(s.units[p], u)], s.index))
    case Mismatch =>
      Err(MismatchedTargetLocale)
    case Append =>
      Ok(Store(s.units + [u], s.index[kt := |s.units|]))
  }

  /** `addTranslationUnits(units)`: adds in order and stops at the first
      failure, keeping the units added before it. */
  function AddAll(c: Config, s: Store, us: seq<Unit>): (r: Outcome)
    requires ValidIndex(s)
    ensures ValidIndex(r.store)
    decreases |us|
  {
    if us == [] then Outcome(s, None)
    else
      match Add(c, s, us[0])
      case Err(e) => Outcome(s, Some(e))
      case Ok(s') => AddAll(c, s', us[1..])
  }

  /** Adding several units never shortens the list and grows it by at most
      one unit per unit given. */
  lemma {:induction false} AddAllGrowth(c: Config, s: Store, us: seq<Unit>)
    requires ValidIndex(s)
    ensures |s.units| <= |AddAll(c, s, us).store.units| <= |s.units| + |us|
    decreases |us|
  {
    if us != [] {
      var r := Add(c, s, us[0]);
      if r.Ok? {
        AddGrowth(c, s, us[0]);
        AddAllGrowth(c, r.value, us[1..]);
      }
    }
  }

  /** One add grows the list by at most one unit. */
  lemma AddGrowth(c: Config, s: Store, u: Unit)
    requires ValidIndex(s)
    requires Add(c, s, u).Ok?
    ensures |s.units| <= |Add(c, s, u).value.units| <= |s.units| + 1
  {
  }

  /** A unit with a target locale whose source-only key is indexed replaces
      that source-only unit in place (whatever `allowDups` says): the list
      keeps its length, the old unit takes on the new unit's properties, and
      the index moves it from the source-only key to the target key. */
  lemma UpgradeInPlace(c: Config, s: Store, u: Unit)
    requires ValidIndex(s)
    requires Truthy(u.targetLocale) && SourceKey(u, c.docLocale) in s.index
    ensures var p := s.index[SourceKey(u, c.docLocale)];
            var r := Add(c, s, u);
            r.Ok? && |r.value.units| == |s.units|
            && r.value.units == s.units[p := Overwrite(s.units[p], u)]
            && SourceKey(u, c.docLocale) !in r.value.index
            && r.value.index[TargetKey(u, c.docLocale)] == p
            && forall k :: k in s.index && k != SourceKey(u, c.docLocale) && k != TargetKey(u, c.docLocale)
                 ==> k in r.value.index && r.value.index[k] == s.index[k]
  {
    SourceKeyDiffers(u, c.docLocale);
  }

  /** With duplicates off, a unit whose target key is indexed (and that is
      not an upgrade) is merged into the indexed unit: the list keeps its
      length and the index does not change. */
  lemma MergeInPlace(c: Config, s: Store, u: Unit)
    requires ValidIndex(s)
    requires !c.allowDups && TargetKey(u, c.docLocale) in s.index
    requires !(Truthy(u.targetLocale) && SourceKey(u, c.docLocale) in s.index)
    ensures var p := s.index[TargetKey(u, c.docLocale)];
            var r := Add(c, s, u);
            r.Ok? && r.value.units == s.units[p := Overwrite(s.units[p], u)]
            && r.value.index == s.index
  {
  }

  /** With duplicates off, a unit already present under its target key, or
      an upgrade of a present source-only unit, never grows the list. */
  lemma NoGrowthWhenIndexed(c: Config, s: Store, u: Unit)
    requires ValidIndex(s)
    requires !c.allowDups
    requires TargetKey(u, c.docLocale) in s.index
      || (Truthy(u.targetLocale) && SourceKey(u, c.docLocale) in s.index)
    ensures Add(c, s, u).Ok? && |Add(c, s, u).value.units| == |s.units|
  {
  }

  /** When neither merge branch fires and the target locale agrees, the list
      grows by exactly this unit, at the end, and it is indexed under its
      target key; other keys keep their positions. */
  lemma AppendAtEnd(c: Config, s: Store, u: Unit)
    requires ValidIndex(s)
    requires !(Truthy(u.targetLocale) && SourceKey(u, c.docLocale) in s.index)
    requires !(TargetKey(u, c.docLocale) in s.index && !c.allowDups)
    requires !(c.v2 && |s.units| > 0 && s.units[0].targetLocale != u.targetLocale)
    ensures var r := Add(c, s, u);
            r.Ok? && r.value.units == s.units + [u]
            && r.value.index[TargetKey(u, c.docLocale)] == |s.units|
            && forall k :: k in s.index && k != TargetKey(u, c.docLocale)
                 ==> k in r.value.index && r.value.index[k] == s.index[k]
  {
  }

  /** In a 2.x document, a unit that would be appended with a target locale
      different from the first unit's is refused. */
  lemma MismatchRefused(c: Config, s: Store, u: Unit)
    requires ValidIndex(s)
    requires c.v2 && |s.units| > 0 && s.units[0].targetLocale != u.targetLocale
    requires !(Truthy(u.targetLocale) && SourceKey(u, c.docLocale) in s.index)
    requires !(TargetKey(u, c.docLocale) in s.index && !c.allowDups)
    ensures Add(c, s, u) == Err(MismatchedTargetLocale)
  {
  }

  /** After any successful add the unit's target key is indexed. */
  lemma AddIndexesTarget(c: Config, s: Store, u: Unit)
    requires ValidIndex(s)
    requires Add(c, s, u).Ok?
    ensures TargetKey(u, c.docLocale) in Add(c, s, u).value.index
  {
  }

  /** With duplicates off, adding the same unit twice leaves the list as long
      as adding it once. */
  lemma AddTwiceSameSize(c: Config, s: Store, u: Unit)
    requires ValidIndex(s)
    requires !c.allowDups && Add(c, s, u).Ok?
    ensures var s1 := Add(c, s, u).value;
            Add(c, s1, u).Ok? && |Add(c, s1, u).value.units| == |s1.units|
  {
    AddIndexesTarget(c, s, u);
    var s1 := Add(c, s, u).value;
    NoGrowthWhenIndexed(c, s1, u);
  }

  /** Overwriting a unit with itself, or with a unit that agrees with it on
      every property except a newly defined target locale, gives the newer
      unit. */
  lemma OverwriteSame(a: Unit, b: Unit)
    requires a == b.(targetLocale := None) && b.targetLocale.Some?
    ensures Overwrite(a, b) == b
  {
  }

  /** The upgrade branch can leave an indexed unit behind: with duplicates
      off, adding a unit with a target locale, then its source-only form,
      then the unit again, ends with two units sharing one target key, the
      first no longer indexed. */
  lemma UpgradeOrphans(c: Config, b: Unit)
    requires !c.v2 && !c.allowDups && Truthy(b.targetLocale)
    ensures var a := b.(targetLocale := None);
            var r := AddAll(c, Store([], map[]), [b, a, b]);
            r.thrown.None? && |r.store.units| == 2
            && r.store.units[0] == b && r.store.units[1] == b
            && forall k :: k in r.store.index ==> r.store.index[k] != 0
  {
    var a := b.(targetLocale := None);
    var d := c.docLocale;
    var kt, ks := TargetKey(b, d), SourceKey(b, d);
    assert SourceKey(a, d) == ks && TargetKey(a, d) == ks by {
      assert KeyParts(a, d, None) == KeyParts(b, d, None);
    }
    SourceKeyDiffers(b, d);
    var s0 := Store([], map[]);
    var s1 := Store([b], map[kt := 0]);
    assert Route(c, s0, b) == Append;
    assert s0.units + [b] == [b];
    assert Add(c, s0, b) == Ok(s1);
    var s2 := Store([b, a], map[kt := 0, ks := 1]);
    assert Route(c, s1, a) == Append;
    assert s1.units + [a] == [b, a];
    assert s1.index[TargetKey(a, d) := |s1.units|] == s2.index;
    assert Add(c, s1, a) == Ok(s2);
    OverwriteSame(a, b);
    var s3 := Store([b, b], map[kt := 1]);
    assert Route(c, s2, b) == Upgrade(1);
    assert (s2.index - {ks})[kt := 1] == map[kt := 1];
    assert s2.units[1 := Overwrite(s2.units[1], b)] == [b, b];
    assert Add(c, s2, b) == Ok(s3);
    assert AddAll(c, s2, [b]) == AddAll(c, s3, []) == Outcome(s3, None);
    assert AddAll(c, s1, [a, b]) == AddAll(c, s2, [b]) by {
      assert [a, b][1..] == [b];
    }
    assert AddAll(c, s0, [b, a, b]) == AddAll(c, s1, [a, b]) by {
      assert [b, a, b][1..] == [a, b];
    }
  }

  /** Appending units without indexing them (what reading a document does)
      keeps every indexed position valid. */
  lemma AppendKeepsIndexValid(s: Store, more: seq<Unit>)
    requires ValidIndex(s)
    ensures ValidIndex(Store(s.units + more, s.index))
  {
  }
}
