/** What the two readers produce, defined without loops: the units read from
    an XLIFF 1.2 or 2.0 document given as the "compact" tree of the XML
    reader, in which an element is an attribute map, an optional text and its
    children by name, a name used once holding one element and a repeated
    name holding a list. The document class reads the same units step by
    step and is proved to agree with these. */
module Parse {
  import opened Basics
  import opened TranslationUnits
  import opened Escape
  import opened LineIndex
  import Keys

  /** A compact element: `_attributes`, `_text`, the named children and
      `_position`, the offset of the element in the text. */
  datatype Compact = Compact(attrs: Option<map<string, string>>, text: Option<string>,
                             kids: map<string, Kids>, position: Option<nat>)

  /** A child name used once holds one element; a repeated one a list. */
  datatype Kids = One(only: Compact) | Many(all: seq<Compact>)

  /** A list as an element: it has no attributes, text or named children. */
  const Bare := Compact(None, None, map[], None)

  /** `makeArray(x)`: a list stays a list, one element becomes a list of one. */
  function MakeArray(k: Kids): seq<Compact>
  {
    match k
    case One(c) => [c]
    case Many(cs) => cs
  }

  /** `e[name]`: the child element, read through a list as `Bare`. */
  function Child(e: Compact, name: string): (r: Option<Compact>)
    ensures r.Some? <==> name in e.kids
    ensures r.Some? && e.kids[name].One? ==> r.value == e.kids[name].only
    ensures r.Some? && e.kids[name].Many? ==> r.value == Bare
  {
    if name !in e.kids then None
    else match e.kids[name]
      case One(c) => Some(c)
      case Many(_) => Some(Bare)
  }

  /** `e._attributes[name]` of an element that has an attribute map. */
  function Attr(e: Compact, name: string): Option<string>
    requires e.attrs.Some?
  {
    if name in e.attrs.value then Some(e.attrs.value[name]) else None
  }

  /** `e._attributes && e._attributes[name]`. */
  function AttrIfAny(e: Compact, name: string): Option<string>
  {
    if e.attrs.Some? then Attr(e, name) else None
  }

  /** `a || b` on optional strings. */
  function Either(a: Option<string>, b: Option<string>): (r: Option<string>)
    ensures Truthy(a) ==> r == a
    ensures !Truthy(a) ==> r == b
  {
    if Truthy(a) then a else b
  }

  /** The translate tri-state as read: false only for "no" and "false". */
  function TranslateFlag(v: Option<string>): (r: Option<bool>)
    ensures r == Some(false) <==> v == Some("no") || v == Some("false")
    ensures r != Some(true)
  {
    if v == Some("no") || v == Some("false") then Some(false) else None
  }

  /** An `id` attribute: a numeral is a number, anything else a string. */
  function ParseId(v: Option<string>): (r: Option<UnitId>)
    ensures r.None? <==> v.None?
    ensures r.Some? && r.value.Num? ==> IsDigits(v.value) && r.value.n == DigitsValue(v.value)
    ensures r.Some? && r.value.Name? ==> r.value.s == v.value && !IsDigits(v.value)
  {
    if v.None? then None
    else if IsDigits(v.value) then Some(Num(DigitsValue(v.value)))
    else Some(Name(v.value))
  }

  /** `x && Number(x)` for an array index: a numeral gives its value. */
  function Ordinal(v: Option<string>): (r: Option<nat>)
    ensures r.Some? <==> v.Some? && IsDigits(v.value)
    ensures r.Some? ==> r.value == DigitsValue(v.value)
  {
    if v.Some? && IsDigits(v.value) then Some(DigitsValue(v.value)) else None
  }

  /** The location of an element with a (truthy) position. */
  function LocationOf(e: Compact, t: seq<nat>): (r: Option<Location>)
    requires LineTable(t)
    ensures r.Some? <==> e.position.Some? && e.position.value != 0
    ensures r.Some? ==> r.value.line < |t| && t[r.value.line] + r.value.column == e.position.value
  {
    if e.position.Some? && e.position.value != 0 then
      var lc := Locate(t, e.position.value);
      Some(Location(lc.0, lc.1))
    else None
  }

  /** The texts of `mrk` elements, an undefined text read as "". */
  function MrkTexts(ms: seq<Compact>): (r: seq<string>)
    ensures |r| == |ms|
    ensures forall i :: 0 <= i < |ms| ==> r[i] == Str(ms[i].text)
  {
    seq(|ms|, i requires 0 <= i < |ms| => Str(ms[i].text))
  }

  /** The separator for joining target segments: none for Chinese, Japanese
      and Thai, which are written without spaces between words. */
  function Separator(asian: bool): (r: string)
    ensures asian <==> r == ""
    ensures !asian ==> r == " "
  {
    if asian then "" else " "
  }

  /** The settings a reader takes from a `file` element. */
  datatype Settings = Settings(pathName: Option<string>, locale: Option<string>, project: Option<string>,
                               targetLocale: Option<string>, flavor: Option<string>, asian: bool)

  // ---- XLIFF 1.2 ----

  /** The source test: a source element whose text is not blank. */
  predicate SourcePasses1(tu: Compact)
  {
    var src := Child(tu, "source");
    src.Some? && Truthy(src.value.text) && HasContent(src.value.text.value)
  }

  /** A 1.2 `trans-unit` the reader can process without failing: a unit that
      passes the source test has an attribute map. */
  predicate Readable1(tu: Compact)
  {
    SourcePasses1(tu) ==> tu.attrs.Some?
  }

  /** The target text of a 1.2 unit: the target's text, else its `mrk`
      segments, joined by script when there are several. */
  function Target1(target: Option<Compact>, asian: bool): (r: Option<string>)
    ensures target.Some? && Truthy(target.value.text) ==> r == target.value.text
    ensures target.None? ==> r.None?
  {
    if target.None? then None
    else
      var tg := target.value;
      if Truthy(tg.text) then tg.text
      else if "mrk" in tg.kids then
        match tg.kids["mrk"]
        case Many(ms) => Some(Join(MrkTexts(ms), Separator(asian)))
        case One(m) => m.text
      else None
  }

  /** The `x-key` of a source element, when it has one that is not empty. */
  function XKey(src: Compact): Option<string>
  {
    var x := AttrIfAny(src, "x-key");
    if Truthy(x) then x else None
  }

  /** The resource name and the source text of a 1.2 unit: its `resname`;
      else the source's `x-key`, which then replaces the source text too;
      else the source text. */
  function Names1(tu: Compact): (r: (string, string))
    requires SourcePasses1(tu) && tu.attrs.Some?
    ensures var src := Child(tu, "source").value.text.value;
            && (Truthy(Attr(tu, "resname")) ==> r == (Attr(tu, "resname").value, src))
            && (!Truthy(Attr(tu, "resname")) && XKey(Child(tu, "source").value).Some? ==>
                  r.0 == r.1 == XKey(Child(tu, "source").value).value)
            && (!Truthy(Attr(tu, "resname")) && XKey(Child(tu, "source").value).None? ==> r == (src, src))
    ensures r.0 != ""
  {
    var src := Child(tu, "source").value;
    var resname := Attr(tu, "resname");
    if Truthy(resname) then (resname.value, src.text.value)
    else
      var x := XKey(src);
      if x.Some? then (x.value, x.value) else (src.text.value, src.text.value)
  }

  /** The options a 1.2 reader hands to the unit constructor. */
  function Options1(s: Settings, tu: Compact, loc: Option<Location>): (o: Unit)
    requires SourcePasses1(tu) && tu.attrs.Some?
    ensures o.source.Some? && o.key.Some?
    ensures o.file == s.pathName && o.sourceLocale == s.locale && o.project == s.project
  {
    var names := Names1(tu);
    var target := Child(tu, "target");
    var note := Child(tu, "note");
    Unit(source := Some(names.1),
         sourceLocale := s.locale,
         key := UnescapeAttr(Some(names.0)),
         file := s.pathName,
         project := s.project,
         target := Target1(target, s.asian),
         targetLocale := s.targetLocale,
         resType := Attr(tu, "restype"),
         state := if target.Some? then AttrIfAny(target.value, "state") else None,
         comment := if note.Some? then note.value.text else None,
         dataType := Attr(tu, "datatype"),
         flavor := s.flavor,
         context := Attr(tu, "x-context"),
         translate := TranslateFlag(Attr(tu, "translate")),
         ordinal := None,
         quantity := None,
         id := ParseId(Attr(tu, "id")),
         location := loc)
  }

  /** The unit read from a 1.2 `trans-unit`, or nothing when it is skipped:
      its source is missing or blank, or the constructor refuses it. An array
      unit takes its index and a plural unit its category from `extype`. */
  function Unit1(s: Settings, tu: Compact, loc: Option<Location>): (r: Option<Unit>)
    requires Readable1(tu)
    ensures r.Some? <==> SourcePasses1(tu) && s.pathName.Some? && s.locale.Some? && s.project.Some?
  {
    if !SourcePasses1(tu) then None
    else
      var o := Options1(s, tu, loc);
      match New(Some(o))
      case Err(_) => None
      case Ok(u) =>
        if u.resType == Some("array") then Some(u.(ordinal := Ordinal(Attr(tu, "extype"))))
        else if u.resType == Some("plural") then Some(u.(quantity := Attr(tu, "extype")))
        else Some(u)
  }

  /** What a 1.2 unit that is read holds: the key is the unescaped
      resource name of the fallback chain, the source is the (possibly
      replaced) source text, translate is false exactly for "no" and "false",
      and `extype` gives an array unit its index and a plural unit its
      category. */
  lemma Unit1Fields(s: Settings, tu: Compact, loc: Option<Location>)
    requires Readable1(tu) && Unit1(s, tu, loc).Some?
    ensures SourcePasses1(tu) && tu.attrs.Some?
    ensures var u := Unit1(s, tu, loc).value;
            && u.key == UnescapeAttr(Some(Names1(tu).0))
            && u.source == Some(Names1(tu).1)
            && (u.translate == Some(false) <==> Attr(tu, "translate") in {Some("no"), Some("false")})
            && u.translate != Some(true)
            && u.resType == Attr(tu, "restype")
            && (u.resType == Some("array") ==> u.ordinal == Ordinal(Attr(tu, "extype")) && u.quantity.None?)
            && (u.resType == Some("plural") ==> u.quantity == Attr(tu, "extype") && u.ordinal.None?)
            && (u.resType != Some("array") && u.resType != Some("plural") ==> u.ordinal.None? && u.quantity.None?)
            && u.target == Target1(Child(tu, "target"), s.asian)
  {
    var o := Options1(s, tu, loc);
    assert New(Some(o)).Ok?;
    assert New(Some(o)).value == o;
    var u := Unit1(s, tu, loc).value;
    assert u == o || u == o.(ordinal := Ordinal(Attr(tu, "extype"))) || u == o.(quantity := Attr(tu, "extype"));
  }

  /** The settings of a 1.2 `file` element. */
  function Settings1(f: Compact, languageOf: Option<string> -> string): Settings
    requires f.attrs.Some?
  {
    var tl := Attr(f, "target-language");
    Settings(Attr(f, "original"), Attr(f, "source-language"),
             Either(Attr(f, "product-name"), Attr(f, "original")),
             tl, Attr(f, "x-flavor"), Keys.IsAsianLocale(tl, languageOf))
  }

  /** The `trans-unit` elements of a 1.2 file. */
  function TransUnitsOf(f: Compact): seq<Compact>
  {
    var body := Child(f, "body");
    if body.Some? && "trans-unit" in body.value.kids then MakeArray(body.value.kids["trans-unit"]) else []
  }

  predicate ReadableFile1(f: Compact)
  {
    f.attrs.Some? && forall i :: 0 <= i < |TransUnitsOf(f)| ==> Readable1(TransUnitsOf(f)[i])
  }

  /** The units read from `tus`, in document order. */
  function Units1(s: Settings, tus: seq<Compact>, t: seq<nat>): (r: seq<Unit>)
    requires LineTable(t) && forall i :: 0 <= i < |tus| ==> Readable1(tus[i])
    ensures |r| <= |tus|
    decreases |tus|
  {
    if tus == [] then []
    else
      var init := tus[..|tus| - 1];
      var u := Unit1(s, tus[|tus| - 1], LocationOf(tus[|tus| - 1], t));
      Units1(s, init, t) + (if u.Some? then [u.value] else [])
  }

  /** The units of one 1.2 file, read with its settings. */
  function File1(f: Compact, t: seq<nat>, languageOf: Option<string> -> string): seq<Unit>
    requires LineTable(t) && ReadableFile1(f)
  {
    Units1(Settings1(f, languageOf), TransUnitsOf(f), t)
  }

  /** The units read from the first `n` files of `fs`, file after file. */
  function Files1(fs: seq<Compact>, n: nat, t: seq<nat>, languageOf: Option<string> -> string): seq<Unit>
    requires LineTable(t) && n <= |fs| && forall i :: 0 <= i < |fs| ==> ReadableFile1(fs[i])
  {
    if n == 0 then []
    else
      assert ReadableFile1(fs[n - 1]);
      Files1(fs, n - 1, t, languageOf) + File1(fs[n - 1], t, languageOf)
  }

  function FilesOf(x: Compact): seq<Compact>
  {
    if "file" in x.kids then MakeArray(x.kids["file"]) else []
  }

  predicate ReadableDoc1(x: Compact)
  {
    forall i :: 0 <= i < |FilesOf(x)| ==> ReadableFile1(FilesOf(x)[i])
  }

  /** `parse1(xliff)`: the units of every file in document order. */
  function Parse1(x: Compact, t: seq<nat>, languageOf: Option<string> -> string): seq<Unit>
    requires LineTable(t) && ReadableDoc1(x)
  {
    Files1(FilesOf(x), |FilesOf(x)|, t, languageOf)
  }

  /** The `trans-unit` elements that pass the source test, in order. */
  function Passing1(tus: seq<Compact>): (r: seq<Compact>)
    ensures forall c :: c in r <==> c in tus && SourcePasses1(c)
    decreases |tus|
  {
    if tus == [] then []
    else
      var init := tus[..|tus| - 1];
      var c := tus[|tus| - 1];
      assert forall x :: x in tus <==> x in init || x == c;
      Passing1(init) + (if SourcePasses1(c) then [c] else [])
  }

  /** In a file whose path, source locale and project are set, the reader
      skips exactly the units with a missing or blank source and reads the
      others in document order. */
  lemma {:induction false} Units1SkipsBlank(s: Settings, tus: seq<Compact>, t: seq<nat>)
    requires LineTable(t) && forall i :: 0 <= i < |tus| ==> Readable1(tus[i])
    requires s.pathName.Some? && s.locale.Some? && s.project.Some?
    ensures var r := Units1(s, tus, t);
            var p := Passing1(tus);
            |r| == |p| && forall i :: 0 <= i < |r| ==> r[i] == Unit1(s, p[i], LocationOf(p[i], t)).value
    decreases |tus|
  {
    if tus != [] {
      var init := tus[..|tus| - 1];
      assert forall i :: 0 <= i < |init| ==> init[i] == tus[i];
      Units1SkipsBlank(s, init, t);
    }
  }

  /** Several target `mrk` segments are joined with nothing between them for
      a Chinese, Japanese or Thai target, and with a space otherwise. */
  lemma MrkJoin(tg: Compact, asian: bool)
    requires !Truthy(tg.text) && "mrk" in tg.kids && tg.kids["mrk"].Many?
    ensures Target1(Some(tg), asian) == Some(Join(MrkTexts(tg.kids["mrk"].all), if asian then "" else " "))
  {
  }

  // ---- XLIFF 2.0 ----

  /** The target piece one 2.0 segment adds: its text, else its `mrk`
      segments joined by script, else a single `mrk`'s text, which reads
      "undefined" when the `mrk` has none. */
  function TargetPiece(tg: Compact, asian: bool): (r: string)
    ensures Truthy(tg.text) ==> r == tg.text.value
    ensures !Truthy(tg.text) && "mrk" !in tg.kids ==> r == ""
  {
    if Truthy(tg.text) then tg.text.value
    else if "mrk" in tg.kids then
      match tg.kids["mrk"]
      case Many(ms) => Join(MrkTexts(ms), Separator(asian))
      case One(m) => if m.text.Some? then m.text.value else "undefined"
    else ""
  }

  /** A 2.0 segment the reader can process: it has a source, and a target
      it reads the state of has an attribute map. */
  predicate ReadableSegment(seg: Compact)
  {
    var src := Child(seg, "source");
    var tg := Child(seg, "target");
    src.Some? && (Truthy(src.value.text) && tg.Some? && "state" in tg.value.kids ==> tg.value.attrs.Some?)
  }

  /** The source, target and state read from segments: the texts of the
      segments with a source text, concatenated in order, and the state of
      the last such target that has a `state` child element. */
  datatype Texts = Texts(source: string, target: string, state: Option<string>)

  /** What one segment adds to the texts read so far: nothing without a
      source text; else its source, its target piece when it has a target,
      and the target's state when the target has a `state` child. */
  function Absorb(acc: Texts, seg: Compact, asian: bool): (r: Texts)
    requires ReadableSegment(seg)
  {
    var src := Child(seg, "source").value;
    var tg := Child(seg, "target");
    if !Truthy(src.text) then acc
    else if tg.None? then Texts(acc.source + src.text.value, acc.target, acc.state)
    else
      Texts(acc.source + src.text.value, acc.target + TargetPiece(tg.value, asian),
            if "state" in tg.value.kids then Attr(tg.value, "state") else acc.state)
  }

  /** The texts read from the segments `segs` onto those read before them. */
  function Segments(acc: Texts, segs: seq<Compact>, asian: bool): (r: Texts)
    requires forall i :: 0 <= i < |segs| ==> ReadableSegment(segs[i])
    decreases |segs|
  {
    if segs == [] then acc
    else
      assert ReadableSegment(segs[0]);
      Segments(Absorb(acc, segs[0], asian), segs[1..], asian)
  }

  /** Nothing read yet. */
  const NoTexts := Texts("", "", None)

  function SegmentsOf(tu: Compact): seq<Compact>
  {
    if "segment" in tu.kids then MakeArray(tu.kids["segment"]) else []
  }

  /** A 2.0 `unit` the reader can process: it has an attribute map and its
      segments are readable. */
  predicate Readable2(tu: Compact)
  {
    tu.attrs.Some? && forall i :: 0 <= i < |SegmentsOf(tu)| ==> ReadableSegment(SegmentsOf(tu)[i])
  }

  /** The comment of a 2.0 unit: the text of its (first) note. */
  function Comment2(tu: Compact): Option<string>
  {
    var notes := Child(tu, "notes");
    if notes.Some? && "note" in notes.value.kids then
      match notes.value.kids["note"]
      case One(n) => n.text
      case Many(ns) => if ns != [] then ns[0].text else None
    else None
  }

  /** The resource type: the `type` attribute without its "res:" prefix,
      "string" when the attribute has no such prefix. */
  function ResType2(v: Option<string>): (r: string)
    ensures v.Some? && StartsWith(v.value, "res:") ==> "res:" + r == v.value
    ensures !(v.Some? && StartsWith(v.value, "res:")) ==> r == "string"
  {
    if v.Some? && StartsWith(v.value, "res:") then v.value[4..] else "string"
  }

  /** The settings of a 2.0 `file` element under the document's locales. */
  function Settings2(f: Compact, srcLang: string, trgLang: Option<string>,
                     languageOf: Option<string> -> string): Settings
    requires f.attrs.Some?
  {
    Settings(Attr(f, "original"), Some(srcLang), Either(Attr(f, "l:project"), Attr(f, "original")),
             trgLang, Attr(f, "l:flavor"), Keys.IsAsianLocale(trgLang, languageOf))
  }

  /** The options a 2.0 reader hands to the unit constructor. */
  function Options2(s: Settings, groupName: Option<string>, tu: Compact, texts: Texts,
                    loc: Option<Location>): (o: Unit)
    requires tu.attrs.Some?
    ensures o.source == Some(texts.source) && o.target == Some(texts.target)
    ensures o.resType == Some(ResType2(Attr(tu, "type")))
  {
    var resname := Either(Attr(tu, "name"), Some(texts.source));
    Unit(source := Some(texts.source),
         sourceLocale := s.locale,
         key := UnescapeAttr(resname),
         file := s.pathName,
         project := s.project,
         target := Some(texts.target),
         targetLocale := s.targetLocale,
         resType := Some(ResType2(Attr(tu, "type"))),
         state := texts.state,
         comment := Comment2(tu),
         dataType := Either(Attr(tu, "l:datatype"), groupName),
         flavor := s.flavor,
         context := Attr(tu, "l:context"),
         translate := TranslateFlag(Attr(tu, "translate")),
         ordinal := None,
         quantity := None,
         id := ParseId(Attr(tu, "id")),
         location := loc)
  }

  /** The unit read from a 2.0 `unit`, or nothing when it is skipped: its
      segments' source is blank, or the constructor refuses it. An array unit
      takes its index from `l:index`, a plural unit its category from
      `l:category`. */
  function Unit2(s: Settings, groupName: Option<string>, tu: Compact, texts: Texts,
                 loc: Option<Location>): (r: Option<Unit>)
    requires tu.attrs.Some?
    ensures r.Some? <==> HasContent(texts.source) && s.pathName.Some? && s.locale.Some? && s.project.Some?
    ensures r.Some? ==> r.value.source == Some(texts.source) && r.value.target == Some(texts.target)
                        && r.value.sourceLocale == s.locale && r.value.resType.Some?
  {
    var o := Options2(s, groupName, tu, texts, loc);
    if !HasContent(o.source.value) then None
    else
      assert o.key.Some?;
      match New(Some(o))
      case Err(_) => None
      case Ok(u) =>
        if u.resType == Some("array") then Some(u.(ordinal := Ordinal(Attr(tu, "l:index"))))
        else if u.resType == Some("plural") then Some(u.(quantity := Attr(tu, "l:category")))
        else Some(u)
  }

  /** The elements holding units: the file's groups, or the file itself. */
  function UnitHolders(f: Compact): seq<Compact>
  {
    if "group" in f.kids then MakeArray(f.kids["group"]) else [f]
  }

  function UnitsIn(h: Compact): seq<Compact>
  {
    if "unit" in h.kids then MakeArray(h.kids["unit"]) else []
  }

  /** A holder the reader can process: one that holds units has an attribute
      map (its `name` is read), and its units are readable. */
  predicate ReadableHolder(h: Compact)
  {
    ("unit" in h.kids ==> h.attrs.Some?) && forall i :: 0 <= i < |UnitsIn(h)| ==> Readable2(UnitsIn(h)[i])
  }

  predicate ReadableFile2(f: Compact)
  {
    f.attrs.Some? && forall i :: 0 <= i < |UnitHolders(f)| ==> ReadableHolder(UnitHolders(f)[i])
  }

  predicate ReadableDoc2(x: Compact)
  {
    x.attrs.Some? && forall i :: 0 <= i < |FilesOf(x)| ==> ReadableFile2(FilesOf(x)[i])
  }

  /** What one 2.0 `unit` element contributes: the unit read, if any. */
  function Read2(s: Settings, groupName: Option<string>, tu: Compact, t: seq<nat>): (r: seq<Unit>)
    requires LineTable(t) && Readable2(tu)
    ensures |r| <= 1
  {
    var u := Unit2(s, groupName, tu, Segments(NoTexts, SegmentsOf(tu), s.asian), LocationOf(tu, t));
    if u.Some? then [u.value] else []
  }

  /** The units read from the first `n` 2.0 `unit` elements of `tus`. */
  function Units2(s: Settings, groupName: Option<string>, tus: seq<Compact>, n: nat, t: seq<nat>): (r: seq<Unit>)
    requires LineTable(t) && n <= |tus| && forall i :: 0 <= i < |tus| ==> Readable2(tus[i])
    ensures |r| <= n
  {
    if n == 0 then []
    else
      assert Readable2(tus[n - 1]);
      Units2(s, groupName, tus, n - 1, t) + Read2(s, groupName, tus[n - 1], t)
  }

  /** The units of the first `n` holders of `hs`, holder after holder. */
  function Holders2(s: Settings, hs: seq<Compact>, n: nat, t: seq<nat>): seq<Unit>
    requires LineTable(t) && n <= |hs| && forall i :: 0 <= i < |hs| ==> ReadableHolder(hs[i])
  {
    if n == 0 then []
    else
      var h := hs[n - 1];
      assert ReadableHolder(h);
      Holders2(s, hs, n - 1, t)
      + (if "unit" in h.kids then Units2(s, Attr(h, "name"), UnitsIn(h), |UnitsIn(h)|, t) else [])
  }

  /** The source locale of a 2.0 document: `srcLang`, or "en-US". */
  function SrcLang(x: Compact): (r: string)
    requires x.attrs.Some?
    ensures Truthy(Attr(x, "srcLang")) ==> r == Attr(x, "srcLang").value
    ensures !Truthy(Attr(x, "srcLang")) ==> r == "en-US"
  {
    Or(Attr(x, "srcLang"), "en-US")
  }

  /** The units of one 2.0 file: those of its holders, in order, read
      with the file's settings and the document's languages. */
  function File2(x: Compact, f: Compact, t: seq<nat>, languageOf: Option<string> -> string): seq<Unit>
    requires LineTable(t) && x.attrs.Some? && ReadableFile2(f)
  {
    Holders2(Settings2(f, SrcLang(x), Attr(x, "trgLang"), languageOf), UnitHolders(f), |UnitHolders(f)|, t)
  }

  /** The units of the first `n` files of `fs`, file after file. */
  function Files2(x: Compact, fs: seq<Compact>, n: nat, t: seq<nat>, languageOf: Option<string> -> string): seq<Unit>
    requires LineTable(t) && x.attrs.Some? && n <= |fs| && forall i :: 0 <= i < |fs| ==> ReadableFile2(fs[i])
  {
    if n == 0 then []
    else
      assert ReadableFile2(fs[n - 1]);
      Files2(x, fs, n - 1, t, languageOf) + File2(x, fs[n - 1], t, languageOf)
  }

  /** `parse2(xliff)`: the units of every holder of every file, in order. */
  function Parse2(x: Compact, t: seq<nat>, languageOf: Option<string> -> string): seq<Unit>
    requires LineTable(t) && ReadableDoc2(x)
  {
    Files2(x, FilesOf(x), |FilesOf(x)|, t, languageOf)
  }

  /** Every unit a 2.0 reader produces has the file's source locale, a
      source that is not blank, a defined target (possibly empty) and a
      resource type. */
  lemma {:induction false} Units2Shape(s: Settings, g: Option<string>, tus: seq<Compact>, n: nat, t: seq<nat>)
    requires LineTable(t) && n <= |tus| && forall i :: 0 <= i < |tus| ==> Readable2(tus[i])
    ensures forall u :: u in Units2(s, g, tus, n, t) ==> Shaped2(s, u)
  {
    if n != 0 {
      Units2Shape(s, g, tus, n - 1, t);
      Read2Shape(s, g, tus[n - 1], t);
    }
  }

  /** A 2.0 `unit` whose segments' source text is not blank. */
  predicate SourcePasses2(s: Settings, tu: Compact)
    requires Readable2(tu)
  {
    HasContent(Segments(NoTexts, SegmentsOf(tu), s.asian).source)
  }

  /** The first `n` 2.0 `unit` elements of `tus` that pass the source
      test, in order. */
  function Passing2(s: Settings, tus: seq<Compact>, n: nat): (r: seq<Compact>)
    requires n <= |tus| && forall i :: 0 <= i < |tus| ==> Readable2(tus[i])
    ensures forall i :: 0 <= i < |r| ==> Readable2(r[i]) && SourcePasses2(s, r[i])
    ensures forall c :: c in r <==> c in tus[..n] && Readable2(c) && SourcePasses2(s, c)
  {
    if n == 0 then []
    else
      assert forall x :: x in tus[..n] <==> x in tus[..n - 1] || x == tus[n - 1];
      Passing2(s, tus, n - 1) + (if SourcePasses2(s, tus[n - 1]) then [tus[n - 1]] else [])
  }

  /** The unit read from a 2.0 `unit` that passes the source test, in a file
      whose path, source locale and project are set. */
  function Kept2(s: Settings, g: Option<string>, tu: Compact, t: seq<nat>): Unit
    requires LineTable(t) && Readable2(tu) && SourcePasses2(s, tu)
    requires s.pathName.Some? && s.locale.Some? && s.project.Some?
  {
    Unit2(s, g, tu, Segments(NoTexts, SegmentsOf(tu), s.asian), LocationOf(tu, t)).value
  }

  lemma Read2Kept(s: Settings, g: Option<string>, tu: Compact, t: seq<nat>)
    requires LineTable(t) && Readable2(tu)
    requires s.pathName.Some? && s.locale.Some? && s.project.Some?
    ensures Read2(s, g, tu, t) == if SourcePasses2(s, tu) then [Kept2(s, g, tu, t)] else []
  {
  }

  /** Reading one more 2.0 `unit` extends the units read and the passing
      elements in step. */
  lemma SkipStep2(s: Settings, g: Option<string>, r0: seq<Unit>, p0: seq<Compact>, tu: Compact, t: seq<nat>)
    requires LineTable(t) && Readable2(tu)
    requires s.pathName.Some? && s.locale.Some? && s.project.Some?
    requires forall i :: 0 <= i < |p0| ==> Readable2(p0[i]) && SourcePasses2(s, p0[i])
    requires |r0| == |p0| && forall i :: 0 <= i < |r0| ==> r0[i] == Kept2(s, g, p0[i], t)
    ensures var r, p := r0 + Read2(s, g, tu, t), p0 + (if SourcePasses2(s, tu) then [tu] else []);
            (forall i :: 0 <= i < |p| ==> Readable2(p[i]) && SourcePasses2(s, p[i]))
            && |r| == |p| && forall i :: 0 <= i < |r| ==> r[i] == Kept2(s, g, p[i], t)
  {
    Read2Kept(s, g, tu, t);
  }

  /** In a file whose path, source locale and project are set, the 2.0
      reader skips exactly the units whose segments' source is blank and
      reads the others in document order. */
  lemma {:induction false} Units2SkipsBlank(s: Settings, g: Option<string>, tus: seq<Compact>, n: nat, t: seq<nat>)
    requires LineTable(t) && n <= |tus| && forall i :: 0 <= i < |tus| ==> Readable2(tus[i])
    requires s.pathName.Some? && s.locale.Some? && s.project.Some?
    ensures var r, p := Units2(s, g, tus, n, t), Passing2(s, tus, n);
            |r| == |p| && forall i :: 0 <= i < |r| ==> r[i] == Kept2(s, g, p[i], t)
    decreases n
  {
    if n != 0 {
      Units2SkipsBlank(s, g, tus, n - 1, t);
      SkipStep2(s, g, Units2(s, g, tus, n - 1, t), Passing2(s, tus, n - 1), tus[n - 1], t);
    }
  }

  predicate Shaped2(s: Settings, u: Unit)
  {
    u.sourceLocale == s.locale && u.target.Some? && u.resType.Some?
    && u.source.Some? && HasContent(u.source.value)
  }

  lemma Read2Shape(s: Settings, g: Option<string>, tu: Compact, t: seq<nat>)
    requires LineTable(t) && Readable2(tu)
    ensures forall u :: u in Read2(s, g, tu, t) ==> Shaped2(s, u)
  {
  }

  /** The state of a 2.0 target is read only when the target has a `state`
      child element: a segment whose target has none (a `state` attribute
      alone is not read) leaves the state read so far as it was. */
  lemma StateNeedsChild(acc: Texts, seg: Compact, asian: bool)
    requires ReadableSegment(seg)
    requires Child(seg, "target").Some? && "state" !in Child(seg, "target").value.kids
    ensures Absorb(acc, seg, asian).state == acc.state
  {
  }

  /** Two segments with source texts contribute their sources, in order. */
  lemma SegmentsConcatenate(a: Compact, b: Compact, asian: bool)
    requires ReadableSegment(a) && ReadableSegment(b)
    requires Truthy(Child(a, "source").value.text) && Truthy(Child(b, "source").value.text)
    ensures Segments(NoTexts, [a, b], asian).source == Child(a, "source").value.text.value + Child(b, "source").value.text.value
  {
    assert [a, b][1..] == [b] && [b][1..] == [];
    var first := Absorb(NoTexts, a, asian);
    assert first.source == Child(a, "source").value.text.value;
    assert Segments(NoTexts, [a, b], asian) == Segments(first, [b], asian) == Absorb(first, b, asian);
  }
}
