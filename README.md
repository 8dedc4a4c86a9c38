# XLIFF documents in Dafny

This project models the core of the `ilib-xliff` JavaScript library. The
library keeps a list of translation units in an XLIFF document object. It
writes that list out as XLIFF 1.2, as XLIFF 2.0, or in a customized 2.0
layout. It reads documents of either version back into units.

The model covers these parts:

- **Translation units** (`TranslationUnits`): the unit record and its
  constructor. The constructor refuses an options object that lacks any of
  the five required properties, and its error message names the missing
  ones.
- **Attribute escaping** (`Escape`): `escapeAttr` and `unescapeAttr` as
  chains of whole-string replacements.
- **Keys** (`Keys`): the version string, the file key `makeTUHashKey`, the
  document's unit key `_hashKey`, and `isAsianLocale`.
- **The unit store** (`Store`): `addTranslationUnit` as an upsert over the
  unit list `tu` and its index `tuhash`. The index maps a key to a
  position in the list. A unit can upgrade an indexed source-only unit,
  merge into an indexed unit, be refused for a second target locale in a
  2.x document, or be appended.
- **The writers** (`Writer`, `Serializer`): the element tree each writer
  builds.
  - `Writer` defines each tree without loops.
  - `Serializer` builds the same trees with the loops of `toString1`,
    `toString2` and `toStringCustom`. It files each unit into a map of
    files (and, in 2.0, groups), then emits the files in ascending key
    order. Each loop is proved to produce exactly the `Writer` tree.
- **The readers** (`Parse`, `XmlUtil`): `parse1`, `parse2` and the helpers
  of `XmlUtil.js`, over the compact element form the XML reader produces.
- **Line positions** (`LineIndex`): `countLines` and
  `charPositionToLocation`.
- **The document class** (`XliffDocument.Xliff`): a class whose fields the
  methods update. It covers the constructor, adding units, `size`,
  `clear`, `serialize`, `deserialize`, `getLines` and `getBytes`.

The XML text codec (`js2xml` / `xml2js`) belongs to another library. It is
a function parameter of `Serialize` and `Deserialize`. The language lookup
behind `isAsianLocale` is a function parameter too.

## Model

| member | source | states |
|---|---|---|
| Escape.EscapeAttr | src/Xliff.js:32-39 | an attribute value is escaped exactly when it is a non-empty string; an absent or empty value stays undefined |
| Escape.UnescapeAttr | src/Xliff.js:47-54 | an attribute value is unescaped exactly when it is a non-empty string |
| Escape.EscapeTextPerChar | src/Xliff.js:33-38 | the four successive replacements escape the text character by character: `&`, `"`, `'`, `<` each become their entity and every other character stays |
| Escape.UnescapeEscapeText | src/Xliff.js:32-54 | unescaping the escaped text gives back the original text, whatever it contains, entities included |
| Escape.EscapeRoundTrip | src/Xliff.js:32-54 | `unescapeAttr(escapeAttr(s))` is `s` for every non-empty string and undefined otherwise |
| Escape.EscapeAvoidsSpecials | src/Xliff.js:32-39 | escaped text holds no `<`, `"` or `'` |
| Escape.EscapeAttrProperties | src/Xliff.js:32-39 | an escaped non-empty value is defined, holds no `<`, `"` or `'`, keeps every `>`, and is unchanged when the value has no special character |
| Keys.VersionString | src/Xliff.js:81-86 | the version text is the major number's digits, a dot, and the fraction (`0` when there is none) |
| Keys.VersionStringSplit | src/Xliff.js:81-86 | the version text splits at its first dot into the major number's digits and the fraction digits |
| Keys.VersionRoutes | src/Xliff.js:81-86 | for versions 1.x and 2.x, the written version text starts with `1` exactly for major 1 and with `2` exactly for major 2, which is how reading routes it |
| Keys.KeyParts | src/Xliff.js:190-193 | the unit key is made of ten parts, with the documented defaults for missing type, locales, context, path, ordinal, quantity and flavor |
| Keys.SourceKeyDiffers | src/Xliff.js:212-213 | a unit with a target locale has different source-only and target keys |
| Keys.HashKeyIdentifies | src/Xliff.js:190-193 | when no part contains `_`, equal unit keys mean equal key parts |
| Keys.HashKeyCollides | src/Xliff.js:190-193 | two units with different keys can share a unit key, because an `_` inside a part can move to a neighbouring part |
| Keys.FileKeyIdentifies | src/Xliff.js:98-100 | when no part contains `_`, two units share a file key exactly when they agree on file, source locale, target locale and project |
| TranslationUnits.New | src/TranslationUnit.js:58-75 | no options gives an empty unit; options lacking source, sourceLocale, key, file or project are refused; any other options are copied whole |
| TranslationUnits.MissingExactly | src/TranslationUnit.js:64-69 | the error lists exactly the missing required properties, in the required order, without repeats, after the fixed message prefix |
| TranslationUnits.EmptyStringsPass | src/TranslationUnit.js:60-62 | required properties that are defined but empty strings are accepted |
| TranslationUnits.CloneProperties | src/TranslationUnit.js:81-83 | a clone of a unit that could be constructed equals the unit; a clone of an empty unit fails |
| XmlUtil.GetAttribute | src/XmlUtil.js:9-16 | the attribute is returned exactly when the element and the attribute exist and the value is non-empty, and it is that value |
| XmlUtil.FirstText | src/XmlUtil.js:29 | finds the first text child: none exists exactly when there is no text child, and no earlier child is text |
| XmlUtil.GetText | src/XmlUtil.js:25-35 | the text is returned exactly when the element has a text child, and it is the text of the first one (empty when it has none) |
| XmlUtil.Named | src/XmlUtil.js:46 | keeps exactly the children with the given name |
| XmlUtil.GetChildrenByName | src/XmlUtil.js:45-47 | undefined exactly when the element or its children are missing; otherwise exactly the children of that name |
| XmlUtil.NamedAppend | src/XmlUtil.js:46 | filtering distributes over concatenation, so the order of children is kept |
| XmlUtil.NamedSplit | src/XmlUtil.js:46 | a matching child lands between the matches before it and the matches after it |
| LineIndex.Breaks | src/Xliff.js:1013-1017 | the positions just after each newline, ascending, each within the text |
| LineIndex.LineStartsShape | src/Xliff.js:1003-1019 | the line index starts at 0, ascends strictly, has one entry per newline plus one, and holds exactly 0 and the positions after newlines |
| LineIndex.BreaksCount | src/Xliff.js:1013-1017 | there is one break per newline in the text |
| LineIndex.LineOf | src/Xliff.js:741-755 | the line found starts at or before the position and is never the final entry of a table with two or more entries |
| LineIndex.Locate | src/Xliff.js:739-760 | the location's line exists and its start plus the column is the position |
| LineIndex.LocateCorrect | src/Xliff.js:739-760 | for a position before the last entry, the line found is the one whose start is at or before the position and whose successor lies after it |
| LineIndex.LocatePastLast | src/Xliff.js:741-759 | a position at or past the last entry is placed on the line before it |
| XliffDocument.Xliff.CharPositionToLocation | src/Xliff.js:739-760 | the binary search returns the location `Locate` defines |
| Store.Add | src/Xliff.js:209-242 | adding keeps every index entry pointing into the list, and fails, with "Mismatched target locale", exactly when the unit would be appended to a 2.x document whose first unit has another target locale |
| Store.AddAll | src/Xliff.js:249-253 | adding several units in turn keeps every index entry pointing into the list |
| Store.AddAllGrowth | src/Xliff.js:249-253 | adding n units grows the list by at most n |
| Store.AddGrowth | src/Xliff.js:209-242 | one successful add grows the list by at most one |
| Store.UpgradeInPlace | src/Xliff.js:215-224 | a unit with a target locale whose source-only key is indexed overwrites that unit in place, and the index moves it from the source-only key to the target key and leaves every other key alone |
| Store.MergeInPlace | src/Xliff.js:226-230 | with duplicates off, a unit whose key is indexed is merged into the indexed unit (its defined properties win) and the index is unchanged |
| Store.NoGrowthWhenIndexed | src/Xliff.js:215-230 | with duplicates off, a unit that upgrades or merges never grows the list |
| Store.AppendAtEnd | src/Xliff.js:232-241 | a unit that neither upgrades nor merges nor mismatches is appended at the end |
| Store.MismatchRefused | src/Xliff.js:232-236 | a 2.x document refuses a unit to be appended whose target locale differs from the first unit's |
| Store.AddIndexesTarget | src/Xliff.js:209-242 | after a successful add the unit's target key is indexed |
| Store.AddTwiceSameSize | src/Xliff.js:226-230 | with duplicates off, adding the same unit twice does not grow the list the second time |
| Store.OverwriteSame | src/Xliff.js:220 | copying a unit's properties onto its own source-only form gives the unit |
| Store.UpgradeOrphans | src/Xliff.js:215-240 | in a 1.2 document with duplicates off, adding b, then b without target locale, then b leaves b twice in the list, and no key indexes the first copy |
| Store.AppendKeepsIndexValid | src/Xliff.js:855 | pushing parsed units onto the list without indexing them keeps the index valid |
| XliffDocument.Xliff.constructor | src/Xliff.js:129-177 | without options: version 1.2, source locale en-US, no tool or path; with options: each property is taken from them, the style defaults to "standard" and the version to 1.2; the unit list and index start empty |
| XliffDocument.Xliff.AddTranslationUnit | src/Xliff.js:209-242 | the list and index become exactly what `Store.Add` gives; on a mismatch nothing changes and the error is thrown; the line counts are untouched |
| XliffDocument.Xliff.AddTranslationUnits | src/Xliff.js:249-253 | the list, index and any error are exactly what `Store.AddAll` gives |
| XliffDocument.Xliff.Size | src/Xliff.js:260-262 | the size is the length of the unit list |
| XliffDocument.Xliff.Clear | src/Xliff.js:1087-1090 | the unit list and index become empty and the line counts stay |
| XliffDocument.Xliff.CountLines | src/Xliff.js:1003-1019 | the line index becomes the line starts of the text, the line count is the newline count plus one, and the length is the text's length, all counted in characters |
| XliffDocument.Xliff.GetLines | src/Xliff.js:1025-1027 | returns the stored line count |
| XliffDocument.Xliff.GetBytes | src/Xliff.js:1033-1035 | returns the stored text length |
| Writer.NextCounter | src/Xliff.js:322-340 | the id counter never goes back: a unit without an id takes the counter and moves it by one, a larger numeric id moves it one past that id, and any other id leaves it |
| Writer.CounterAfter | src/Xliff.js:285-340 | the counter after any list of units is at least 1 |
| Writer.AutoIdsSequential | src/Xliff.js:322 | units without ids are numbered 1, 2, 3, … in list order |
| Writer.ExplicitIdMovesCounter | src/Xliff.js:338-340 | after a unit with a numeric id larger than the counter, the next unit without an id gets that id plus one |
| Writer.EqualIdCollides | src/Xliff.js:322-340 | a unit whose numeric id equals the counter does not move it, so the next unit without an id gets the same id |
| Writer.TransUnit1 | src/Xliff.js:320-364 | a 1.2 `trans-unit` has the given id, the escaped key as resname, the type (default "string"), translate="false" exactly for units marked untranslatable, extype exactly for plurals (the category, default "other") and arrays (the ordinal), x-context exactly for a context, and the children source, then target if any, then note if any |
| Writer.Unit2 | src/Xliff.js:468-525 | a 2.0 `unit` has the given id, a name only when the key differs from the source, the type "res:" plus the resource type, translate, l:category and l:index under the same conditions as 1.2, l:context exactly for a context, and notes (if a comment) before one segment |
| Writer.UnitCustom | src/Xliff.js:630-672 | a customized `unit` carries only id, name and translate attributes, and notes (if a comment) before one segment |
| Writer.FirstIn | src/Xliff.js:294-303 | the unit a 1.2 file is created from exists exactly when some unit has the file's key, and it has that key |
| Writer.FirstInIsFirst | src/Xliff.js:294-303 | the unit a 1.2 file is created from is the first with the file's key: no unit before it in the list has that key |
| Writer.SortedKeys | src/Xliff.js:376 | file keys come out ascending, each key once, exactly the keys of the units |
| Writer.FileOrderIndependent | src/Xliff.js:376-378 | the file order depends only on which keys occur, not on the order of the units |
| Writer.Tree1FileCount | src/Xliff.js:292-318 | a 1.2 document has one file per distinct file key |
| Writer.TransUnits1Count | src/Xliff.js:365-369 | a 1.2 file holds one `trans-unit` per unit with its key |
| Writer.Selected | src/Xliff.js:398-403 | the 2.0 writers keep exactly the units with the first unit's source locale and, when the first unit has a target locale, its target locale |
| Writer.GroupNamesIn | src/Xliff.js:527-550 | the group names of a file are exactly the groups of its units |
| Writer.GroupNumber | src/Xliff.js:446-546 | a group has a number exactly when some unit belongs to it, at most the number of groups |
| Writer.FileNumber | src/Xliff.js:615 | every customized file has a number between 1 and the number of files |
| Writer.First2 | src/Xliff.js:436-452 | the unit a 2.0 file is created from belongs to that file |
| Writer.First2IsFirst | src/Xliff.js:436-452 | the unit a 2.0 file is created from is the first of that file: no unit before it in the list belongs to it |
| Writer.GroupsOf | src/Xliff.js:527-550 | a file holds one group per distinct group name of its units |
| Writer.Tree2NotEmpty | src/Xliff.js:393-565 | a 2.0 document written from a non-empty list has at least one file |
| Writer.GroupNumbersDistinct | src/Xliff.js:446-546 | two different groups never share a number |
| Writer.GroupIdsDistinct | src/Xliff.js:446-546 | in the standard layout two different groups never share an id |
| Writer.GroupNamesOnce | src/Xliff.js:537-549 | a file never holds two groups of the same name |
| Writer.FirstGroupIsOne | src/Xliff.js:446 | the first unit's group is group number 1 |
| Serializer.Filing1Keys | src/Xliff.js:292-318 | the 1.2 writer's file map has a file for exactly the keys of the units |
| Serializer.Filing1Entries | src/Xliff.js:294-369 | each file of the 1.2 writer's map has the attributes of its first unit and the elements of all its units in order |
| Serializer.NextId | src/Xliff.js:322-340 | the id written and the counter after it are those `IdText` and `NextCounter` define |
| Serializer.File1Unit | src/Xliff.js:288-369 | one pass of the 1.2 loop extends the file map, the order of keys and the counter to those of the longer list |
| Serializer.File1At | src/Xliff.js:287-370 | the 1.2 loop keeps its invariant from unit i to unit i + 1 |
| Serializer.Emit1 | src/Xliff.js:376-378 | emitting the files of the keys in order gives the 1.2 files of `Writer` |
| Serializer.Build1 | src/Xliff.js:269-381 | `toString1`'s loop builds exactly the tree `Writer.Tree1` defines |
| Serializer.FirstNamed | src/Xliff.js:537-543 | finds the first group with the name, or none when no group has it |
| Serializer.FindGroup | src/Xliff.js:537-543 | the search loop returns the first group with the name |
| Serializer.PlaceUnit | src/Xliff.js:543-550 | the unit goes into the first group of its name, or into a new group at the end, and a group is added exactly when none had the name |
| Serializer.PlacedGroups | src/Xliff.js:527-550 | placing the next unit into a file's groups gives that file's groups for the longer list, and a group of its name exists exactly when its file already had it |
| Serializer.AddUnit | src/Xliff.js:468-550 | writing one unit into its file places its element and moves the id counter and the group counter |
| Serializer.StepAgrees | src/Xliff.js:429-551 | one pass of the 2.0 loop keeps every file of the map equal to that file in `Writer` for the longer list |
| Serializer.File2Unit | src/Xliff.js:429-551 | one pass of the 2.0 loop changes the file map as defined and moves every counter to its value for the longer list |
| Serializer.File2At | src/Xliff.js:429-551 | the 2.0 loop keeps its invariant from unit i to unit i + 1 |
| Serializer.Emit2 | src/Xliff.js:557-559 | emitting the files of the keys in order gives, key by key, the `file` element written from the file held for that key, followed by its header in the standard layout |
| Serializer.EmittedIsFiles2 | src/Xliff.js:557-559 | when the held files agree with the units, the emitted elements are the 2.0 files of `Writer` for those keys |
| Serializer.Build2 | src/Xliff.js:393-565 | the loops of `toString2` and `toStringCustom` build exactly the tree `Writer.Tree2` defines for their layout |
| XliffDocument.Xliff.ToString1 | src/Xliff.js:269-386 | the text is the XML declaration followed by the rendering of the 1.2 tree of the unit list |
| XliffDocument.Xliff.ToString2 | src/Xliff.js:393-565 | the text is the XML declaration followed by the rendering of the standard 2.0 tree |
| XliffDocument.Xliff.ToStringCustom | src/Xliff.js:572-716 | the text is the XML declaration followed by the rendering of the customized 2.0 tree |
| XliffDocument.Xliff.Serialized | src/Xliff.js:727-728 | every serialization starts with the XML declaration |
| XliffDocument.Xliff.Serialize | src/Xliff.js:727-731 | returns the 1.2 text for a version below 2, otherwise the customized or standard 2.0 text by style; afterwards the line index, line count and length describe the returned text, and the units are unchanged |
| Sorting.Sort | src/Xliff.js:376 | the keys come out ascending, with the same keys and length |
| Sorting.AscendingUnique | src/Xliff.js:376 | two ascending orders of the same keys are equal, so the emitted order is determined by the key set |
| Sorting.BelowTotal | src/Xliff.js:376 | any two different keys are ordered one way or the other |
| Sorting.BelowTransitive | src/Xliff.js:376 | the key order is transitive |
| Parse.Child | src/Xliff.js:791-808 | a named child exists exactly when the element has it; a child used once is that element, and a repeated child (a list) reads as an element with no attributes, text or children |
| Parse.Either | src/Xliff.js:778 | the first value when it is a non-empty string, otherwise the second |
| Parse.TranslateFlag | src/Xliff.js:822-825 | a unit is marked untranslatable exactly for "no" or "false", and never marked translatable |
| Parse.ParseId | src/Xliff.js:832 | an id is read exactly when present, as the numeral's value when it is all digits and as the text otherwise |
| Parse.Ordinal | src/Xliff.js:847-850 | an array index is read exactly when it is all digits, as that number |
| Parse.LocationOf | src/Xliff.js:818-820 | a location is read exactly for a non-zero position, and it is the line and column of that position |
| Parse.MrkTexts | src/Xliff.js:800-802 | one text per `mrk` element, in order |
| Parse.Separator | src/Xliff.js:803 | `mrk` texts are joined without a space exactly for an Asian target locale, and with one space otherwise |
| Parse.Target1 | src/Xliff.js:795-808 | a target with text gives that text, and a missing target gives none |
| Parse.MrkJoin | src/Xliff.js:798-803 | a target made of several `mrk` elements gives their texts joined by the separator |
| Parse.Names1 | src/Xliff.js:810-817 | the key is the resname when it is non-empty, else the source's x-key (which also replaces the source), else the source text; the key is never empty |
| Parse.Options1 | src/Xliff.js:827-846 | a parsed 1.2 unit has a source and key and takes its file, source locale and project from the file settings |
| Parse.Unit1 | src/Xliff.js:827-858 | a 1.2 unit is made exactly when its source has content and the file has a path, a source locale and a project (or path) |
| Parse.Unit1Fields | src/Xliff.js:810-854 | a parsed 1.2 unit has the unescaped key, the source text, the translate flag, the type, the ordinal for arrays, the quantity for plurals, and the target read as above |
| Parse.Units1 | src/Xliff.js:788-862 | a 1.2 file yields at most one unit per `trans-unit` |
| Parse.Passing1 | src/Xliff.js:791 | keeps exactly the `trans-unit` elements whose source has content |
| Parse.Units1SkipsBlank | src/Xliff.js:788-862 | the units read from a 1.2 file are exactly the units of the `trans-unit` elements whose source has content, in order |
| Parse.TargetPiece | src/Xliff.js:928-940 | a segment's target with text gives that text, and one with neither text nor `mrk` gives nothing |
| Parse.StateNeedsChild | src/Xliff.js:941-943 | the state is read only from a target with a `state` child, so a target with only a state attribute leaves it unchanged |
| Parse.SegmentsConcatenate | src/Xliff.js:921-947 | the sources of a unit's segments are concatenated in order |
| Parse.ResType2 | src/Xliff.js:912-916 | the type after a "res:" prefix, otherwise "string" |
| Parse.SrcLang | src/Xliff.js:873 | the document's source locale, or en-US when it is missing or empty |
| Parse.Options2 | src/Xliff.js:959-977 | a parsed 2.0 unit has the concatenated source and target and the type read above |
| Parse.Unit2 | src/Xliff.js:958-989 | a 2.0 unit is made exactly when its source has content other than white space and the file has a path, a source locale and a project (or path) |
| Parse.Read2 | src/Xliff.js:901-993 | a 2.0 `unit` element yields at most one unit |
| Parse.Units2 | src/Xliff.js:897-995 | a group yields at most one unit per `unit` element |
| Parse.Passing2 | src/Xliff.js:958 | keeps exactly the `unit` elements whose segments' source is not blank |
| Parse.Units2SkipsBlank | src/Xliff.js:897-995 | the units read from a group are exactly the units of the `unit` elements whose segments' source is not blank, in order |
| Parse.Units2Shape | src/Xliff.js:958-989 | every unit read from a group has the shape the 2.0 reader gives |
| XliffDocument.ReadSegments | src/Xliff.js:921-947 | the loop over a unit's segments gives the texts `Parse.Segments` defines |
| XliffDocument.Xliff.ReadUnits1 | src/Xliff.js:788-862 | the loop over a 1.2 file's `trans-unit` elements reads the units `Parse.Units1` defines |
| XliffDocument.Xliff.ReadFile1 | src/Xliff.js:771-864 | reading one 1.2 file gives the units `Parse.File1` defines |
| XliffDocument.Xliff.ReadFiles1 | src/Xliff.js:767-865 | the loop over a 1.2 document's files reads the units `Parse.Files1` defines |
| XliffDocument.Xliff.Parse1 | src/Xliff.js:766-866 | the units read are pushed onto the list; the index and line counts are untouched |
| XliffDocument.Xliff.ReadUnit2 | src/Xliff.js:901-993 | reading one more `unit` element extends the group's units by what `Parse.Read2` gives |
| XliffDocument.Xliff.ReadUnits2 | src/Xliff.js:897-995 | the loop over a group's `unit` elements reads the units `Parse.Units2` defines |
| XliffDocument.Xliff.ReadHolders2 | src/Xliff.js:894-995 | the loop over a file's groups (or the file itself) reads the units `Parse.Holders2` defines |
| XliffDocument.Xliff.ReadFile2 | src/Xliff.js:879-996 | reading one 2.0 file gives the units `Parse.File2` defines |
| XliffDocument.Xliff.ReadFiles2 | src/Xliff.js:876-997 | the loop over a 2.0 document's files reads the units `Parse.Files2` defines |
| XliffDocument.Xliff.Parse2 | src/Xliff.js:872-998 | the units read are pushed onto the list; the index and line counts are untouched |
| XliffDocument.Read | src/Xliff.js:1054-1068 | reading fails exactly when the root is an `xliff` element whose version is missing or starts with neither 1 nor 2 |
| XliffDocument.Xliff.Deserialize | src/Xliff.js:1044-1069 | the line counts describe the XML text; an unknown version returns nothing and leaves the list alone; otherwise the units of the document are pushed onto the list and the whole list is returned |

## Left out

- The XML text codec (`js2xml` and `xml2js` of `ilib-xml-js`) is a function parameter. Its conversions are not modelled: attribute order, pretty printing, `nativeTypeAttribute` (the model reads attribute values as strings, so `translate="false"` is compared as text), and text trimming.
- `isAsianLocale` takes the language lookup of `ilib-locale` as a parameter.
- `generatePluralComment` (src/Xliff.js:59-76) is not called by any other operation in the file and is not modelled.
- `getVersion` and `getTranslationUnits` return a field unchanged and are not modelled; the unit list is the `tu` field.
- Versions are a major number and fraction digits, not the floating-point number `parseFloat` gives. Only the major number decides 1.2 against 2.x.
- Numeric unit ids that were read from a document are numbers in the model. In JavaScript they can stay strings, and then `tu.id + 1` concatenates text.
- Units are values. The model does not capture that the list and index share unit objects, that a caller keeps references to stored units, or that `JSUtils.shallowCopy` updates a shared object in place. The merge is modelled as copying the new unit's defined properties over the old ones.
- Setting `tuhash[key] = undefined` on an upgrade is modelled as removing the key.
- The writers' test of `this["company"]` is left out: the constructor never sets that field, so it is always undefined.
- The header of a 2.0 file is added when the file is emitted rather than when it is created. It follows the groups, which is where the key order of the source's file object puts it.
- The model's 2.0 loop counts files in both layouts. Only the customized layout has a file counter (src/Xliff.js:601, 615), and only that layout writes the count.
- The `untranslated` parameter of `serialize` is unused in the source and is not modelled.
- XliffDocument.Xliff.CountLines: lengths and line starts count characters (Unicode scalar values), not the UTF-16 code units that JavaScript's `text.length` and the match lengths count (src/Xliff.js:1007, 1016). For text with a character outside the Basic Multilingual Plane, `getBytes` and every line start after that character are smaller in the model. Positions from the XML reader, which are code-unit offsets, would then fall on other columns or lines.
- Parse.Ordinal: only decimal numerals are read as an array index. The source converts `extype` and `l:index` with `Number(...)` (src/Xliff.js:849, 980). That also accepts fractions, hexadecimal, exponents and padded numerals, gives NaN for other text, and leaves an empty string as it is. The model reads all of these as no index (`Unit.ordinal` is a natural number), so the writers omit `extype` or `l:index` where the source would write `1.5` or `NaN`.
- `Sorting.Sort` orders keys by code points. JavaScript's default sort compares UTF-16 code units, and the two orders differ for characters outside the Basic Multilingual Plane.
- `LineIndex.LocateCorrect` proves the line found only for positions before the last line start. Past the last line start, `LineIndex.LocatePastLast` states what the source returns, which is the line before.
- The writers' `console.log` calls for undefined units, and the readers' logging of skipped units, are left out. An undefined unit in the list cannot be expressed.
- The `try`/`catch` around the reader's unit construction is the `Option` of `Parse.Unit1` and `Parse.Unit2`.
- The source crashes on a `trans-unit` or `unit` without `_attributes`, on a segment without a source, and on a target with a `state` child but no attributes. These crashes are preconditions (`Readable1`, `Readable2`, `ReadableSegment` and their file and document forms), not error results.
- The 2.x writers read `this.tu[0]` and crash on an empty list. `Serialize`, `ToString2` and `ToStringCustom` require a non-empty list for version 2 and later.
