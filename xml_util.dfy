/** Three accessors over a parsed XML element in the expanded (non-compact)
    form: one attribute as a string, the first text child, and the children
    with a given name. Every piece of the element may be absent. */
module XmlUtil {
  import opened Basics

  /** An element of the expanded tree: `type` ("element", "text", ...),
      `name`, `attributes`, `elements` and `text`, each possibly absent. */
  datatype XmlElement = XmlElement(
    kind: Option<string>,
    name: Option<string>,
    attributes: Option<map<string, string>>,
    elements: Option<seq<XmlElement>>,
    text: Option<string>)

  /** `getAttribute(element, attrName)`: the attribute's value when the
      element, its attribute map and the attribute are all there and the
      value is not empty; otherwise nothing. */
  function GetAttribute(element: Option<XmlElement>, attrName: string): (r: Option<string>)
    ensures r.Some? <==>
      element.Some? && element.value.attributes.Some?
      && attrName in element.value.attributes.value
      && element.value.attributes.value[attrName] != ""
    ensures r.Some? ==> r.value == element.value.attributes.value[attrName] && r.value != ""
  {
    if element.Some? && element.value.attributes.Some?
       && attrName in element.value.attributes.value
       && element.value.attributes.value[attrName] != ""
    then Some(element.value.attributes.value[attrName])
    else None
  }

  predicate IsText(e: XmlElement)
  {
    e.kind == Some("text")
  }

  /** The position of the first text child, as `Array.prototype.find` scans. */
  function FirstText(es: seq<XmlElement>): (r: Option<nat>)
    ensures r.Some? <==> exists i :: 0 <= i < |es| && IsText(es[i])
    ensures r.Some? ==> r.value < |es| && IsText(es[r.value])
    ensures r.Some? ==> forall i :: 0 <= i < r.value ==> !IsText(es[i])
    decreases |es|
  {
    if es == [] then None
    else if IsText(es[0]) then Some(0)
    else
      var rest := FirstText(es[1..]);
      if rest.None? then
        assert forall i :: 1 <= i < |es| ==> es[i] == es[1..][i - 1];
        None
      else Some(rest.value + 1)
  }

  /** `getText(element)`: the text of the first child of type "text", with a
      missing text read as ""; nothing when the element, its children or a
      text child are absent. */
  function GetText(element: Option<XmlElement>): (r: Option<string>)
    ensures r.Some? <==>
      element.Some? && element.value.elements.Some?
      && exists i :: 0 <= i < |element.value.elements.value| && IsText(element.value.elements.value[i])
    ensures r.Some? ==>
      exists i :: 0 <= i < |element.value.elements.value|
        && IsText(element.value.elements.value[i])
        && (forall j :: 0 <= j < i ==> !IsText(element.value.elements.value[j]))
        && r.value == Str(element.value.elements.value[i].text)
  {
    if element.None? || element.value.elements.None? then None
    else
      var es := element.value.elements.value;
      var k := FirstText(es);
      if k.None? then None else Some(Str(es[k.value].text))
  }

  /** The elements of `es` whose name is `n`, in their original order. */
  function Named(es: seq<XmlElement>, n: string): (r: seq<XmlElement>)
    ensures |r| <= |es|
    ensures forall e :: e in r <==> e in es && e.name == Some(n)
    decreases |es|
  {
    if es == [] then []
    else (if es[0].name == Some(n) then [es[0]] else []) + Named(es[1..], n)
  }

  /** `getChildrenByName(element, elName)`: the children named `elName` in
      their original order; nothing when the element or its children are
      absent. */
  function GetChildrenByName(element: Option<XmlElement>, elName: string): (r: Option<seq<XmlElement>>)
    ensures r.None? <==> element.None? || element.value.elements.None?
    ensures r.Some? ==> forall e :: e in r.value <==> e in element.value.elements.value && e.name == Some(elName)
  {
    if element.None? || element.value.elements.None? then None
    else Some(Named(element.value.elements.value, elName))
  }

  /** Selecting by name keeps order: the selection of a concatenation is the
      concatenation of the selections. */
  lemma {:induction false} NamedAppend(a: seq<XmlElement>, b: seq<XmlElement>, n: string)
    ensures Named(a + b, n) == Named(a, n) + Named(b, n)
    decreases |a|
  {
    if a == [] {
      assert a + b == b;
    } else {
      assert (a + b)[0] == a[0];
      assert (a + b)[1..] == a[1..] + b;
      NamedAppend(a[1..], b, n);
    }
  }

  /** A child keeps its place: the children before a selected child that are
      also selected come before it in the result. */
  lemma {:induction false} NamedSplit(es: seq<XmlElement>, i: nat, n: string)
    requires i < |es| && es[i].name == Some(n)
    ensures Named(es, n) == Named(es[..i], n) + [es[i]] + Named(es[i + 1..], n)
  {
    assert es == es[..i] + ([es[i]] + es[i + 1..]);
    NamedAppend(es[..i], [es[i]] + es[i + 1..], n);
    NamedAppend([es[i]], es[i + 1..], n);
    assert Named([es[i]], n) == [es[i]] + Named([], n);
  }
}
