/** The small pure helpers of the document model: the version text, the two
    identity keys (of a unit, and of the file a unit is written to) and the
    test for scripts written without spaces between words. */
module Keys {
  import opened Basics
  import opened TranslationUnits

  /** An XLIFF version number: its integral part and the digits after the
      point ("" when the number is integral), e.g. 1.2 is Version(1, "2"). */
  datatype Version = Version(major: nat, fraction: string)

  const DefaultVersion := Version(1, "2")

  /** `version < 2`, which selects the 1.2 writer. */
  predicate Before2(v: Version)
  {
    v.major < 2
  }

  /** `versionString(num)`: the number's integral digits, a point, and its
      fraction or "0" when it has none. */
  function VersionString(v: Version): (r: string)
    ensures exists d :: IsDigits(d) && DigitsValue(d) == v.major
              && r == d + "." + (if v.fraction == "" then "0" else v.fraction)
  {
    NatToStringRoundTrip(v.major);
    NatToString(v.major) + "." + (if v.fraction == "" then "0" else v.fraction)
  }

  /** Reading the version text back: everything before the first point is
      the integral part, everything after it the fraction (or "0"). */
  lemma VersionStringSplit(v: Version)
    ensures var r := VersionString(v);
            var n := |NatToString(v.major)|;
            n < |r| && r[n] == '.' && (forall i :: 0 <= i < n ==> r[i] != '.')
            && DigitsValue(r[..n]) == v.major
            && r[n + 1..] == (if v.fraction == "" then "0" else v.fraction)
  {
    var r := VersionString(v);
    var d := NatToString(v.major);
    NatToStringRoundTrip(v.major);
    assert r == d + "." + (if v.fraction == "" then "0" else v.fraction);
    assert r[..|d|] == d;
    forall i | 0 <= i < |d| ensures r[i] != '.' {
      assert r[i] == d[i];
    }
  }

  /** Versions 1.x and 2.x are written with the first digit that the reader
      dispatches on: "1" selects the 1.2 reader, "2" the 2.0 reader. */
  lemma VersionRoutes(v: Version)
    requires v.major == 1 || v.major == 2
    ensures StartsWith(VersionString(v), "1") <==> v.major == 1
    ensures StartsWith(VersionString(v), "2") <==> v.major == 2
  {
    assert VersionString(v)[0] == NatToString(v.major)[0];
  }

  /** `value || ""` of an ordinal in a key: 0 and a missing ordinal both give "". */
  function OrdinalText(o: Option<nat>): string
  {
    if o.Some? && o.value != 0 then NatToString(o.value) else ""
  }

  /** `makeTUHashKey(tu)`: the file a 1.2 or 2.0 writer puts a unit in. */
  function FileKeyParts(u: Unit): seq<string>
  {
    [Str(u.file), Str(u.sourceLocale), Or(u.targetLocale, ""), Str(u.project)]
  }

  function MakeTUHashKey(u: Unit): string
  {
    Join(FileKeyParts(u), "_")
  }

  /** The ten fields of `_hashKey`, with `targetLocale` passed separately so
      that the source-only key can be formed with "". */
  function KeyParts(u: Unit, docLocale: Option<string>, targetLocale: Option<string>): (r: seq<string>)
    ensures |r| == 10
  {
    [Str(u.key), Or(u.resType, "string"),
     (if Truthy(u.sourceLocale) then u.sourceLocale.value else Str(docLocale)),
     Or(targetLocale, ""), Or(u.context, ""), Str(u.project), Or(u.file, ""),
     OrdinalText(u.ordinal), Or(u.quantity, ""), Or(u.flavor, "")]
  }

  /** `_hashKey(...)` of a unit with the given target locale. */
  function HashKey(u: Unit, docLocale: Option<string>, targetLocale: Option<string>): string
  {
    Join(KeyParts(u, docLocale, targetLocale), "_")
  }

  /** The key of a unit as if it had no target locale. */
  function SourceKey(u: Unit, docLocale: Option<string>): string
  {
    HashKey(u, docLocale, None)
  }

  /** The key of a unit with its own target locale. */
  function TargetKey(u: Unit, docLocale: Option<string>): string
  {
    HashKey(u, docLocale, u.targetLocale)
  }

  /** A unit with a target locale never has the same key as its source-only
      form: the target key is longer by the locale's length. */
  lemma SourceKeyDiffers(u: Unit, docLocale: Option<string>)
    requires Truthy(u.targetLocale)
    ensures SourceKey(u, docLocale) != TargetKey(u, docLocale)
  {
    var ps, pt := KeyParts(u, docLocale, None), KeyParts(u, docLocale, u.targetLocale);
    JoinLength(ps, "_");
    JoinLength(pt, "_");
    SumLengthsReplace(ps, 3, u.targetLocale.value);
    assert pt == ps[3 := u.targetLocale.value];
  }

  lemma {:induction false} SumLengthsReplace(ps: seq<string>, i: nat, x: string)
    requires i < |ps|
    ensures SumLengths(ps[i := x]) == SumLengths(ps) - |ps[i]| + |x|
    decreases |ps|
  {
    if i > 0 {
      SumLengthsReplace(ps[1..], i - 1, x);
      assert ps[i := x][1..] == ps[1..][i - 1 := x];
    }
  }

  /** When no field contains "_", equal keys come only from equal fields:
      the ten-field key identifies a unit's identity exactly. */
  lemma HashKeyIdentifies(u: Unit, v: Unit, docLocale: Option<string>, tu: Option<string>, tv: Option<string>)
    requires NoneContains(KeyParts(u, docLocale, tu), '_') && NoneContains(KeyParts(v, docLocale, tv), '_')
    requires HashKey(u, docLocale, tu) == HashKey(v, docLocale, tv)
    ensures KeyParts(u, docLocale, tu) == KeyParts(v, docLocale, tv)
  {
    JoinInjective(KeyParts(u, docLocale, tu), KeyParts(v, docLocale, tv), '_');
  }

  /** Fields that contain "_" can make different identities share a key:
      key "a_b" with type "c" and key "a" with type "b_c" collide whenever
      the other eight fields agree. */
  lemma HashKeyCollides(u: Unit, v: Unit, docLocale: Option<string>, t: Option<string>, a: string, b: string, c: string)
    requires u.key == Some(a + "_" + b) && u.resType == Some(c) && c != ""
    requires v.key == Some(a) && v.resType == Some(b + "_" + c)
    requires KeyParts(u, docLocale, t)[2..] == KeyParts(v, docLocale, t)[2..]
    ensures u.key != v.key && HashKey(u, docLocale, t) == HashKey(v, docLocale, t)
  {
    var pu, pv := KeyParts(u, docLocale, t), KeyParts(v, docLocale, t);
    var tail := Join(pu[2..], "_");
    assert pu[1..][1..] == pu[2..] && pv[1..][1..] == pv[2..];
    assert Join(pu, "_") == (a + "_" + b) + "_" + (c + "_" + tail);
    assert Join(pv, "_") == a + "_" + ((b + "_" + c) + "_" + tail);
    assert (a + "_" + b) + "_" + (c + "_" + tail) == a + "_" + ((b + "_" + c) + "_" + tail);
    assert |a + "_" + b| != |a|;
  }

  /** Two units go to the same file exactly when their four file fields
      agree, provided no field contains "_". */
  lemma FileKeyIdentifies(u: Unit, v: Unit)
    requires NoneContains(FileKeyParts(u), '_') && NoneContains(FileKeyParts(v), '_')
    ensures MakeTUHashKey(u) == MakeTUHashKey(v) <==> FileKeyParts(u) == FileKeyParts(v)
  {
    if MakeTUHashKey(u) == MakeTUHashKey(v) {
      JoinInjective(FileKeyParts(u), FileKeyParts(v), '_');
    }
  }

  /** `isAsianLocale(spec)`: the language of the locale is Chinese, Japanese
      or Thai. Locale parsing is a parameter: `languageOf` gives the
      language subtag of a locale specification. */
  predicate IsAsianLocale(spec: Option<string>, languageOf: Option<string> -> string)
  {
    languageOf(spec) in {"zh", "ja", "th"}
  }
}
