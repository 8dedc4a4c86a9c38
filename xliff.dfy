/** The XLIFF document: its configuration, the unit list `tu` with its key
    index `tuhash`, the line table of the last text read or written, and the
    operations that add units, write the document as an element tree and
    read units back from a parsed document. */
module XliffDocument {
  import opened Basics
  import opened TranslationUnits
  import opened Keys
  import opened Store
  import opened LineIndex
  import opened Sorting
  import W = Writer
  import P = Parse
  import S = Serializer

  /** The constructor's options; `allowDups` is read for its truth value. */
  datatype Options = Options(toolId: Option<string>, toolName: Option<string>,
                             toolVersion: Option<string>, toolCompany: Option<string>,
                             copyright: Option<string>, path: Option<string>,
                             sourceLocale: Option<string>, project: Option<string>,
                             allowDups: bool, style: Option<string>, version: Option<Version>)

  const NoTools := W.Tools(None, None, None, None, None)

  /** The declaration written before the element tree. */
  const XmlDecl := "<?xml version=\"1.0\" encoding=\"utf-8\"?>\n"

  /** The `version` attribute of the root names a version `deserialize`
      reads: it is set and starts with "1" or "2". */
  predicate KnownVersion(x: P.Compact)
  {
    var v := P.AttrIfAny(x, "version");
    Truthy(v) && (StartsWith(v.value, "1") || StartsWith(v.value, "2"))
  }

  predicate IsVersion1(x: P.Compact)
  {
    var v := P.AttrIfAny(x, "version");
    v.Some? && StartsWith(v.value, "1")
  }

  /** A parsed text `deserialize` can read without failing: a root whose
      version it reads is readable by the reader of that version. */
  predicate ReadableRoot(root: P.Compact)
  {
    var x := P.Child(root, "xliff");
    x.Some? && KnownVersion(x.value) ==>
      (if IsVersion1(x.value) then P.ReadableDoc1(x.value) else P.ReadableDoc2(x.value))
  }

  /** What `deserialize` reads from a parsed text: nothing when the root
      has an unknown version, else the units of the root's reader, none
      when there is no root. */
  function Read(root: P.Compact, t: seq<nat>, languageOf: Option<string> -> string): (r: Option<seq<Unit>>)
    requires LineTable(t) && ReadableRoot(root)
    ensures r.None? <==> P.Child(root, "xliff").Some? && !KnownVersion(P.Child(root, "xliff").value)
  {
    var x := P.Child(root, "xliff");
    if x.None? then Some([])
    else if !KnownVersion(x.value) then None
    else if IsVersion1(x.value) then Some(P.Parse1(x.value, t, languageOf))
    else Some(P.Parse2(x.value, t, languageOf))
  }

  /** The source, target and state read from the segments of a 2.0 unit,
      segment by segment. */
  method ReadSegments(segs: seq<P.Compact>, asian: bool) returns (texts: P.Texts)
    requires forall i :: 0 <= i < |segs| ==> P.ReadableSegment(segs[i])
    ensures texts == P.Segments(P.NoTexts, segs, asian)
  {
    var source, target, state := "", "", None;
    assert segs[0..] == segs;
    var j := 0;
    while j < |segs|
      invariant 0 <= j <= |segs|
      invariant P.Segments(P.Texts(source, target, state), segs[j..], asian) == P.Segments(P.NoTexts, segs, asian)
    {
      assert segs[j..][1..] == segs[j + 1..];
      var segment := segs[j];
      assert P.ReadableSegment(segment);
      var src := P.Child(segment, "source").value;
      if Truthy(src.text) {
        source := source + src.text.value;
        var tg := P.Child(segment, "target");
        if tg.Some? {
          target := target + P.TargetPiece(tg.value, asian);
          if "state" in tg.value.kids {
            state := P.Attr(tg.value, "state");
          }
        }
      }
      j := j + 1;
    }
    texts := P.Texts(source, target, state);
  }

  class Xliff {
    const version: Version
    const sourceLocale: Option<string>
    const style: Option<string>
    const allowDups: bool
    const tools: W.Tools
    const path: Option<string>
    const project: Option<string>

    var tu: seq<Unit>
    var tuhash: map<string, nat>
    var lines: nat
    var lineIndex: seq<nat>
    var fileLength: nat

    /** Every key of the index names a unit of the list. */
    predicate Valid()
      reads this
    {
      ValidIndex(Store(tu, tuhash))
    }

    /** The list and the index as one value. */
    function Contents(): Store
      reads this
    {
      Store(tu, tuhash)
    }

    /** The settings `addTranslationUnit` reads. */
    function Settings(): Config
    {
      Config(!Before2(version), allowDups, sourceLocale)
    }

    /** Without options: version 1.2, source locale en-US, duplicates off
        and no tool. With options: each setting as given, the style
        defaulting to "standard" and the version to 1.2. */
    constructor (options: Option<Options>)
      ensures options.None? ==>
                version == DefaultVersion && sourceLocale == Some("en-US") && style.None?
                && !allowDups && tools == NoTools && path.None? && project.None?
      ensures options.Some? ==>
                var o := options.value;
                && tools == W.Tools(o.toolId, o.toolName, o.toolVersion, o.toolCompany, o.copyright)
                && path == o.path && sourceLocale == o.sourceLocale && project == o.project
                && allowDups == o.allowDups && style == Some(Or(o.style, "standard"))
                && version == (if o.version.Some? then o.version.value else DefaultVersion)
      ensures tu == [] && tuhash == map[] && lines == 0 && lineIndex == [] && fileLength == 0
      ensures Valid()
    {
      if options.Some? {
        var o := options.value;
        tools := W.Tools(o.toolId, o.toolName, o.toolVersion, o.toolCompany, o.copyright);
        path := o.path;
        sourceLocale := o.sourceLocale;
        project := o.project;
        allowDups := o.allowDups;
        style := Some(Or(o.style, "standard"));
        version := if o.version.Some? then o.version.value else DefaultVersion;
      } else {
        tools := NoTools;
        path := None;
        sourceLocale := Some("en-US");
        project := None;
        allowDups := false;
        style := None;
        version := DefaultVersion;
      }
      tu := [];
      tuhash := map[];
      lines := 0;
      lineIndex := [];
      fileLength := 0;
    }

    /** `addTranslationUnit(unit)`: the list and index become those of
        `Add`; when the unit is refused the document is unchanged and the
        refusal is thrown. */
    method AddTranslationUnit(unit: Unit) returns (thrown: Option<string>)
      requires Valid()
      modifies this
      ensures Valid()
      ensures Add(Settings(), old(Contents()), unit).Ok? ==>
                Contents() == Add(Settings(), old(Contents()), unit).value && thrown.None?
      ensures Add(Settings(), old(Contents()), unit).Err? ==>
                Contents() == old(Contents()) && thrown == Some(MismatchedTargetLocale)
      ensures lines == old(lines) && lineIndex == old(lineIndex) && fileLength == old(fileLength)
    {
      var keySource := HashKey(unit, sourceLocale, None);
      var keyTarget := HashKey(unit, sourceLocale, unit.targetLocale);
      if Truthy(unit.targetLocale) && keySource in tuhash {
        var p := tuhash[keySource];
        tuhash := tuhash - {keySource};
        tu := tu[p := Overwrite(tu[p], unit)];
        tuhash := tuhash[keyTarget := p];
        return None;
      }
      if keyTarget in tuhash && !allowDups {
        var p := tuhash[keyTarget];
        tu := tu[p := Overwrite(tu[p], unit)];
        return None;
      }
      if !Before2(version) && |tu| > 0 && tu[0].targetLocale != unit.targetLocale {
        return Some(MismatchedTargetLocale);
      }
      tu := tu + [unit];
      tuhash := tuhash[keyTarget := |tu| - 1];
      return None;
    }

    /** `addTranslationUnits(units)`: the units are added in order; the
        first refusal is thrown and the units after it are not added. */
    method AddTranslationUnits(units: seq<Unit>) returns (thrown: Option<string>)
      requires Valid()
      modifies this
      ensures Valid()
      ensures AddAll(Settings(), old(Contents()), units) == Outcome(Contents(), thrown)
      ensures lines == old(lines) && lineIndex == old(lineIndex) && fileLength == old(fileLength)
    {
      var i := 0;
      while i < |units|
        invariant 0 <= i <= |units| && Valid()
        invariant AddAll(Settings(), old(Contents()), units) == AddAll(Settings(), Contents(), units[i..])
        invariant lines == old(lines) && lineIndex == old(lineIndex) && fileLength == old(fileLength)
      {
        assert units[i..][1..] == units[i + 1..];
        thrown := AddTranslationUnit(units[i]);
        if thrown.Some? {
          return;
        }
        i := i + 1;
      }
      return None;
    }

    /** `size()`: the number of units in the list. */
    function Size(): (n: nat)
      reads this
      ensures n == |tu|
    {
      |tu|
    }

    /** `clear()`: the list and the index are emptied; the configuration
        and the line table stay. */
    method Clear()
      modifies this
      ensures tu == [] && tuhash == map[] && Valid()
      ensures lines == old(lines) && lineIndex == old(lineIndex) && fileLength == old(fileLength)
    {
      tu := [];
      tuhash := map[];
    }

    /** `countLines(text)`: the line table of `text`, one entry per line,
        the number of lines and the length of the text. */
    method CountLines(text: string)
      modifies this
      ensures lineIndex == LineStarts(text) && LineTable(lineIndex)
      ensures lines == |lineIndex| == Count(text, '\n') + 1
      ensures fileLength == |text|
      ensures tu == old(tu) && tuhash == old(tuhash)
    {
      lines := 1;
      lineIndex := [];
      fileLength := |text|;
      // each pass of the scan reaches the end of one match of a line
      // followed by its newline; `index` is where the current line starts
      var index := 0;
      var i := 0;
      while i < |text|
        invariant 0 <= i <= |text|
        invariant lineIndex + [index] == LineStarts(text[..i])
        invariant lines == |lineIndex| + 1
        invariant tu == old(tu) && tuhash == old(tuhash) && fileLength == |text|
      {
        assert text[..i + 1][..i] == text[..i];
        if text[i] == '\n' {
          lines := lines + 1;
          lineIndex := lineIndex + [index];
          index := i + 1;
        }
        i := i + 1;
      }
      lineIndex := lineIndex + [index];
      assert text[..|text|] == text;
      LineStartsShape(text);
    }

    /** `charPositionToLocation(pos)`: a binary search of the line table for
        the line of `pos` and the offset of `pos` in it. */
    method CharPositionToLocation(pos: nat) returns (line: nat, column: nat)
      requires LineTable(lineIndex)
      ensures (line, column) == Locate(lineIndex, pos)
    {
      var left, right := 0, |lineIndex| - 1;
      while right - left > 1
        invariant 0 <= left <= right < |lineIndex|
        invariant |lineIndex| >= 2 ==> left < right
        invariant lineIndex[left] <= pos
        invariant right < |lineIndex| - 1 ==> pos < lineIndex[right]
        decreases right - left
      {
        var middle := (left + right) / 2;
        if pos < lineIndex[middle] {
          right := middle;
        } else if pos > lineIndex[middle] {
          left := middle;
        } else {
          LineOfIs(lineIndex, pos, middle);
          return middle, 0;
        }
      }
      LineOfIs(lineIndex, pos, left);
      return left, pos - lineIndex[left];
    }

    /** The location of an element: looked up when it has a (non-zero)
        position. */
    method LocationOf(e: P.Compact) returns (loc: Option<Location>)
      requires LineTable(lineIndex)
      ensures loc == P.LocationOf(e, lineIndex)
    {
      loc := None;
      if e.position.Some? && e.position.value != 0 {
        var line, column := CharPositionToLocation(e.position.value);
        loc := Some(Location(line, column));
      }
    }

    /** The `trans-unit` elements of one 1.2 file, read in order: the
        units made, in document order. */
    method ReadUnits1(settings: P.Settings, units: seq<P.Compact>) returns (read: seq<Unit>)
      requires LineTable(lineIndex) && forall i :: 0 <= i < |units| ==> P.Readable1(units[i])
      ensures read == P.Units1(settings, units, lineIndex)
    {
      read := [];
      var j := 0;
      while j < |units|
        invariant 0 <= j <= |units|
        invariant read == P.Units1(settings, units[..j], lineIndex)
      {
        assert units[..j + 1][..j] == units[..j];
        var element := units[j];
        assert P.Readable1(element);
        if P.SourcePasses1(element) {
          var location := LocationOf(element);
          var unit := P.Unit1(settings, element, location);
          if unit.Some? {
            read := read + [unit.value];
          }
        }
        j := j + 1;
      }
      assert units[..|units|] == units;
    }

    /** One 1.2 `file` element, read with its own settings. */
    method ReadFile1(file: P.Compact, languageOf: Option<string> -> string) returns (read: seq<Unit>)
      requires LineTable(lineIndex) && P.ReadableFile1(file)
      ensures read == P.File1(file, lineIndex, languageOf)
    {
      read := ReadUnits1(P.Settings1(file, languageOf), P.TransUnitsOf(file));
    }

    /** The `file` elements of a 1.2 document, read in order. */
    method ReadFiles1(files: seq<P.Compact>, languageOf: Option<string> -> string) returns (read: seq<Unit>)
      requires LineTable(lineIndex) && forall i :: 0 <= i < |files| ==> P.ReadableFile1(files[i])
      ensures read == P.Files1(files, |files|, lineIndex, languageOf)
    {
      read := [];
      var i := 0;
      while i < |files|
        invariant 0 <= i <= |files|
        invariant read == P.Files1(files, i, lineIndex, languageOf)
      {
        assert P.ReadableFile1(files[i]);
        var units := ReadFile1(files[i], languageOf);
        read := read + units;
        i := i + 1;
      }
    }

    /** `parse1(xliff)`: the units of every file, in document order, are
        appended to the list; the index is not touched. */
    method Parse1(x: P.Compact, languageOf: Option<string> -> string)
      requires Valid() && LineTable(lineIndex) && P.ReadableDoc1(x)
      modifies this
      ensures tuhash == old(tuhash) && lineIndex == old(lineIndex)
      ensures lines == old(lines) && fileLength == old(fileLength)
      ensures tu == old(tu) + P.Parse1(x, lineIndex, languageOf) && Valid()
    {
      var read := ReadFiles1(P.FilesOf(x), languageOf);
      AppendKeepsIndexValid(Contents(), read);
      tu := tu + read;
    }

    /** The `unit` element `units[j]`, read: the unit, if one is made, is
        added after the units read before it. */
    method ReadUnit2(settings: P.Settings, groupName: Option<string>, units: seq<P.Compact>, j: nat,
                     done: seq<Unit>) returns (read: seq<Unit>)
      requires LineTable(lineIndex) && j < |units| && forall i :: 0 <= i < |units| ==> P.Readable2(units[i])
      requires done == P.Units2(settings, groupName, units, j, lineIndex)
      ensures read == P.Units2(settings, groupName, units, j + 1, lineIndex)
    {
      var element := units[j];
      assert P.Readable2(element);
      var location := LocationOf(element);
      var texts := ReadSegments(P.SegmentsOf(element), settings.asian);
      var unit := P.Unit2(settings, groupName, element, texts, location);
      read := done;
      if unit.Some? {
        read := read + [unit.value];
      }
    }

    /** The `unit` elements of one 2.0 group (or file), read in order. */
    method ReadUnits2(settings: P.Settings, groupName: Option<string>, units: seq<P.Compact>)
      returns (read: seq<Unit>)
      requires LineTable(lineIndex) && forall i :: 0 <= i < |units| ==> P.Readable2(units[i])
      ensures read == P.Units2(settings, groupName, units, |units|, lineIndex)
    {
      read := [];
      var j := 0;
      while j < |units|
        invariant 0 <= j <= |units|
        invariant read == P.Units2(settings, groupName, units, j, lineIndex)
      {
        read := ReadUnit2(settings, groupName, units, j, read);
        j := j + 1;
      }
    }

    /** The groups of one 2.0 file (or the file itself), read in order: the
        units of each holder that has `unit` elements. */
    method ReadHolders2(settings: P.Settings, holders: seq<P.Compact>) returns (read: seq<Unit>)
      requires LineTable(lineIndex) && forall i :: 0 <= i < |holders| ==> P.ReadableHolder(holders[i])
      ensures read == P.Holders2(settings, holders, |holders|, lineIndex)
    {
      read := [];
      var h := 0;
      while h < |holders|
        invariant 0 <= h <= |holders|
        invariant read == P.Holders2(settings, holders, h, lineIndex)
      {
        var holder := holders[h];
        assert P.ReadableHolder(holder);
        if "unit" in holder.kids {
          var units := ReadUnits2(settings, P.Attr(holder, "name"), P.UnitsIn(holder));
          read := read + units;
        }
        h := h + 1;
      }
    }

    /** One 2.0 `file` element, read with the document's `srcLang` and
        `trgLang`. */
    method ReadFile2(x: P.Compact, file: P.Compact, languageOf: Option<string> -> string)
      returns (read: seq<Unit>)
      requires LineTable(lineIndex) && x.attrs.Some? && P.ReadableFile2(file)
      ensures read == P.File2(x, file, lineIndex, languageOf)
    {
      var settings := P.Settings2(file, P.SrcLang(x), P.Attr(x, "trgLang"), languageOf);
      read := ReadHolders2(settings, P.UnitHolders(file));
    }

    /** The `file` elements of a 2.0 document, read in order. */
    method ReadFiles2(x: P.Compact, files: seq<P.Compact>, languageOf: Option<string> -> string)
      returns (read: seq<Unit>)
      requires LineTable(lineIndex) && x.attrs.Some?
      requires forall i :: 0 <= i < |files| ==> P.ReadableFile2(files[i])
      ensures read == P.Files2(x, files, |files|, lineIndex, languageOf)
    {
      read := [];
      var i := 0;
      while i < |files|
        invariant 0 <= i <= |files|
        invariant read == P.Files2(x, files, i, lineIndex, languageOf)
      {
        assert P.ReadableFile2(files[i]);
        var units := ReadFile2(x, files[i], languageOf);
        read := read + units;
        i := i + 1;
      }
    }

    /** `parse2(xliff)`: the units of every group (or file) of every file,
        in document order, are appended to the list; the index is not
        touched. */
    method Parse2(x: P.Compact, languageOf: Option<string> -> string)
      requires Valid() && LineTable(lineIndex) && P.ReadableDoc2(x)
      modifies this
      ensures tuhash == old(tuhash) && lineIndex == old(lineIndex)
      ensures lines == old(lines) && fileLength == old(fileLength)
      ensures tu == old(tu) + P.Parse2(x, lineIndex, languageOf) && Valid()
    {
      var read := ReadFiles2(x, P.FilesOf(x), languageOf);
      AppendKeepsIndexValid(Contents(), read);
      tu := tu + read;
    }

    /** `deserialize(xml)`: the line table of the text is built; a root
        with an unknown version is refused, leaving the list as it was;
        otherwise the units read are appended, without indexing them, and
        the whole list is returned. The version is not changed. */
    method Deserialize(xml: string, xml2js: string -> P.Compact, languageOf: Option<string> -> string)
      returns (r: Option<seq<Unit>>)
      requires Valid() && ReadableRoot(xml2js(xml))
      modifies this
      ensures Valid() && tuhash == old(tuhash)
      ensures lineIndex == LineStarts(xml) && GetLines() == Count(xml, '\n') + 1 && GetBytes() == |xml|
      ensures var read := Read(xml2js(xml), LineStarts(xml), languageOf);
              && (read.None? ==> r.None? && tu == old(tu))
              && (read.Some? ==> tu == old(tu) + read.value && r == Some(tu))
    {
      var json := xml2js(xml);
      CountLines(xml);
      var x := P.Child(json, "xliff");
      if x.Some? {
        if !KnownVersion(x.value) {
          return None;
        }
        if IsVersion1(x.value) {
          Parse1(x.value, languageOf);
        } else {
          Parse2(x.value, languageOf);
        }
      }
      return Some(tu);
    }

    /** `toString1()`: the XML declaration followed by the text of the 1.2
        element tree of the list; `render` is the XML writer. */
    method ToString1(render: W.Node -> string) returns (xml: string)
      ensures xml == XmlDecl + render(W.Tree1(version, tools, tu))
    {
      var tree := S.Build1(version, tools, tu);
      xml := XmlDecl + render(tree);
    }

    /** `toString2()`: the XML declaration followed by the text of the 2.0
        element tree in the standard layout. The first unit is read, so the
        list must not be empty. */
    method ToString2(render: W.Node -> string) returns (xml: string)
      requires tu != []
      ensures xml == XmlDecl + render(W.Tree2(W.Standard, version, tools, tu))
    {
      var tree := S.Build2(W.Standard, version, tools, tu);
      xml := XmlDecl + render(tree);
    }

    /** `toStringCustom()`: as `toString2()`, in the customized layout. */
    method ToStringCustom(render: W.Node -> string) returns (xml: string)
      requires tu != []
      ensures xml == XmlDecl + render(W.Tree2(W.Custom, version, tools, tu))
    {
      var tree := S.Build2(W.Custom, version, tools, tu);
      xml := XmlDecl + render(tree);
    }

    /** The text `serialize()` writes: 1.2 before version 2, otherwise 2.0
        in the layout the style names. */
    function Serialized(render: W.Node -> string): (xml: string)
      requires Before2(version) || tu != []
      reads this
      ensures |xml| >= |XmlDecl| && xml[..|XmlDecl|] == XmlDecl
    {
      XmlDecl + render(
        if Before2(version) then W.Tree1(version, tools, tu)
        else if style == Some("custom") then W.Tree2(W.Custom, version, tools, tu)
        else W.Tree2(W.Standard, version, tools, tu))
    }

    /** `serialize()`: the text of the document, by version and style; the
        line table becomes that of the text, and the list and the index
        are kept. */
    method Serialize(render: W.Node -> string) returns (xml: string)
      requires Before2(version) || tu != []
      modifies this
      ensures xml == old(Serialized(render))
      ensures lineIndex == LineStarts(xml) && LineTable(lineIndex)
      ensures GetLines() == Count(xml, '\n') + 1 && GetBytes() == |xml|
      ensures tu == old(tu) && tuhash == old(tuhash)
    {
      if Before2(version) {
        xml := ToString1(render);
      } else if style == Some("custom") {
        xml := ToStringCustom(render);
      } else {
        xml := ToString2(render);
      }
      CountLines(xml);
    }

    /** `getLines()`: the number of lines of the last text read or
        written, 0 before any. */
    function GetLines(): (n: nat)
      reads this
      ensures n == lines
    {
      lines
    }

    /** `getBytes()`: the length of the last text read or written, 0
        before any. */
    function GetBytes(): (n: nat)
      reads this
      ensures n == fileLength
    {
      fileLength
    }
  }
}
