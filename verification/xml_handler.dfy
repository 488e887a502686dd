/** `XmlHandler`: the metatype XML document for one configuration interface,
    an `OCD` element holding the `AD` elements and a `Designate` element
    pointing back at it, and the name of the file it is written to. */
module XmlHandler {
  import opened Results
  import opened JavaText
  import opened Dom
  import opened Annotations
  import opened AnnotationManager

  /** The namespace of version 1.4.0 of the metatype XML schema. */
  const Namespace := "http://www.osgi.org/xmlns/metatype/v1.4.0"
  const RootTag := "metatype:MetaData"

  /** The `OCD` element before the `AD` pass: `id`, `name` and `description`
      are always set, blank or not. */
  function OcdElement(ocd: ObjectClassDefinition): (e: Element)
    ensures e.ns == None && e.tag == "OCD" && e.children == []
    ensures e.attrs == [("id", ocd.id), ("name", ocd.name), ("description", ocd.description)]
  {
    var e1 := SetAttr(NewElement("OCD"), "id", ocd.id);
    var e2 := SetAttr(e1, "name", ocd.name);
    assert "id" != "name" && "id" != "description" && "name" != "description" by {
      assert "name"[0] != "description"[0];
    }
    PutAbsent(e1.attrs, "name", ocd.name);
    PutAbsent(e2.attrs, "description", ocd.description);
    SetAttr(e2, "description", ocd.description)
  }

  /** `addDesignate`'s element: `pid` is the id, and one `Object` child refers
      to the `OCD` by the same id. */
  function Designate(id: string): (e: Element)
    ensures e.ns == None && e.tag == "Designate" && e.attrs == [("pid", id)]
    ensures |e.children| == 1
    ensures e.children[0] == Element(None, "Object", [("ocdref", id)], [])
  {
    var objEl := SetAttr(NewElement("Object"), "ocdref", id);
    AppendChild(SetAttr(NewElement("Designate"), "pid", id), objEl)
  }

  /** `addDesignate`: the `Designate` element goes last under the root. */
  function AddDesignate(root: Element, id: string): (r: Element)
    ensures r.children == root.children + [Designate(id)]
    ensures r.ns == root.ns && r.tag == root.tag && r.attrs == root.attrs
  {
    AppendChild(root, Designate(id))
  }

  /** `process`: the root element of the metatype document and the manager
      after its `AD` pass, which has recorded each method's id. */
  function Process(ocd: ObjectClassDefinition, m: Manager): (r: (Element, Manager))
    ensures r.0.ns == Some(Namespace) && r.0.tag == RootTag && r.0.attrs == []
    ensures |r.0.children| == 2
    ensures r.0.children[0] == ProcessAttributeDefinitions(m, OcdElement(ocd)).0
    ensures r.1 == ProcessAttributeDefinitions(m, OcdElement(ocd)).1
  {
    var (ocdEl, m') := ProcessAttributeDefinitions(m, OcdElement(ocd));
    var root := AppendChild(Element(Some(Namespace), RootTag, [], []), ocdEl);
    (AddDesignate(root, ocd.id), m')
  }

  /** The root has exactly two children: the `OCD` element, carrying the
      definition's id, name and description and one `AD` child per method in
      declaration order, then the `Designate` element for the same id. */
  lemma ProcessShape(ocd: ObjectClassDefinition, m: Manager)
    ensures
      var (root, m') := Process(ocd, m);
      var ocdEl := root.children[0];
      && ocdEl.tag == "OCD" && ocdEl.ns == None
      && GetAttr(ocdEl, "id") == Some(ocd.id)
      && GetAttr(ocdEl, "name") == Some(ocd.name)
      && GetAttr(ocdEl, "description") == Some(ocd.description)
      && |ocdEl.children| == |m.methods|
      && (forall i :: 0 <= i < |m.methods| ==> ocdEl.children[i] == AdElement(m.methods[i], m'.methods[i].adId))
      && root.children[1] == Designate(ocd.id)
  {
    var (ocdEl, m') := ProcessAttributeDefinitions(m, OcdElement(ocd));
    assert ocdEl.attrs == [("id", ocd.id), ("name", ocd.name), ("description", ocd.description)];
    assert "id" != "name" && "id" != "description" && "name" != "description" by {
      assert "name"[0] != "description"[0];
    }
  }

  /** The `Designate` element and its `Object` both name the `OCD` element's id. */
  lemma DesignateRefersToOcd(ocd: ObjectClassDefinition, m: Manager)
    ensures
      var root := Process(ocd, m).0;
      var designate := root.children[1];
      && GetAttr(designate, "pid") == GetAttr(root.children[0], "id") == Some(ocd.id)
      && |designate.children| == 1
      && designate.children[0].tag == "Object"
      && GetAttr(designate.children[0], "ocdref") == Some(ocd.id)
  {
    ProcessShape(ocd, m);
  }

  /** The id of the i-th `AD` element is the id the pass recorded for the i-th
      method: the link the generated source relies on. */
  lemma AdIdsInDocument(ocd: ObjectClassDefinition, m: Manager, i: nat)
    requires i < |m.methods|
    ensures
      var (root, m') := Process(ocd, m);
      GetAttr(root.children[0].children[i], "id") == Some(m'.methods[i].adId)
  {
    ProcessShape(ocd, m);
    var m' := Process(ocd, m).1;
    AdElementLabels(m.methods[i], m'.methods[i].adId);
  }

  /** `createTarget`: the name, character by character in lower case, with
      the extension `.xml`. */
  function TargetFileName(name: string): (r: string)
    ensures |r| == |name| + 4
    ensures forall i :: 0 <= i < |name| ==> r[i] == ToLower(name[i])
    ensures EndsWith(r, ".xml")
  {
    LowerAll(name) + ".xml"
  }

  /** Two names give the same file exactly when they are equal ignoring case. */
  lemma TargetFileNameCaseInsensitive(a: string, b: string)
    ensures TargetFileName(a) == TargetFileName(b) <==> EqualsIgnoreCase(a, b)
  {
    if TargetFileName(a) == TargetFileName(b) {
      assert LowerAll(a) == TargetFileName(a)[..|a|];
      assert LowerAll(b) == TargetFileName(b)[..|b|];
    }
  }
}
