/** One translatable string occurrence and its constructor, which checks the
    five required fields and otherwise copies the options verbatim. */
module TranslationUnits {
  import opened Basics

  /** An explicit unit id: a number, or any other string. */
  datatype UnitId = Num(n: nat) | Name(s: string)

  /** A (line, column) position in the text a unit was read from. */
  datatype Location = Location(line: nat, column: nat)

  /** The properties of a unit; `None` is a property that is `undefined`. */
  datatype Unit = Unit(
    source: Option<string>,
    sourceLocale: Option<string>,
    key: Option<string>,
    file: Option<string>,
    project: Option<string>,
    target: Option<string>,
    targetLocale: Option<string>,
    resType: Option<string>,
    state: Option<string>,
    comment: Option<string>,
    dataType: Option<string>,
    flavor: Option<string>,
    context: Option<string>,
    translate: Option<bool>,
    ordinal: Option<nat>,
    quantity: Option<string>,
    id: Option<UnitId>,
    location: Option<Location>)

  /** A unit with no properties at all. */
  const Empty := Unit(None, None, None, None, None, None, None, None, None,
                      None, None, None, None, None, None, None, None, None)

  /** The required properties, in the order the constructor checks them. */
  const Required: seq<string> := ["source", "sourceLocale", "key", "file", "project"]

  const MissingPrefix := "Missing required parameters in the TranslationUnit constructor: "

  /** `typeof(options[p]) !== "undefined"` for a required property `p`. */
  predicate Defined(o: Unit, p: string)
    requires p in Required
  {
    match p
    case "source" => o.source.Some?
    case "sourceLocale" => o.sourceLocale.Some?
    case "key" => o.key.Some?
    case "file" => o.file.Some?
    case _ => o.project.Some?
  }

  function Absent<T>(v: Option<T>, name: string): seq<string>
  {
    if v.None? then [name] else []
  }

  /** The required properties that are undefined, in the order of `Required`. */
  function Missing(o: Unit): seq<string>
  {
    Absent(o.source, "source") + Absent(o.sourceLocale, "sourceLocale") + Absent(o.key, "key")
    + Absent(o.file, "file") + Absent(o.project, "project")
  }

  /** `new TranslationUnit(options)`: no options give an empty unit without
      any check; otherwise every required property must be defined, and the
      unit carries exactly the given properties. */
  function New(options: Option<Unit>): (r: Result<Unit, string>)
    ensures options.None? ==> r == Ok(Empty)
    ensures options.Some? && r.Ok? ==> r.value == options.value
    ensures options.Some? ==> (r.Err? <==>
      (options.value.source.None? || options.value.sourceLocale.None? || options.value.key.None?
       || options.value.file.None? || options.value.project.None?))
  {
    match options
    case None => Ok(Empty)
    case Some(o) =>
      if Missing(o) == [] then Ok(o)
      else Err(MissingPrefix + Join(Missing(o), ", "))
  }

  /** `unit.clone()`: a new unit built from this one's properties, which runs
      the required-property check again. */
  function Clone(u: Unit): Result<Unit, string>
  {
    New(Some(u))
  }

  /** The error message lists exactly the undefined required properties, each
      once. */
  lemma MissingExactly(o: Unit)
    ensures forall p :: p in Missing(o) <==> p in Required && !Defined(o, p)
    ensures forall i, j :: 0 <= i < j < |Missing(o)| ==> Missing(o)[i] != Missing(o)[j]
    ensures New(Some(o)).Err? ==> New(Some(o)).error == MissingPrefix + Join(Missing(o), ", ")
  {
  }

  /** Only `undefined` counts as missing: empty strings pass the check. */
  lemma EmptyStringsPass(o: Unit)
    requires o.source == Some("") && o.sourceLocale == Some("") && o.key == Some("")
    requires o.file == Some("") && o.project == Some("")
    ensures New(Some(o)) == Ok(o)
  {
  }

  /** Cloning a unit that passes the check gives a unit with the same
      properties; cloning an empty unit throws. */
  lemma CloneProperties(u: Unit)
    ensures New(Some(u)).Ok? ==> Clone(u) == Ok(u)
    ensures Clone(Empty).Err?
  {
  }
}
