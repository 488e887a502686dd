/** `MetatypeAnnotationProcessor`: one processing round. The configuration
    interface is processed only when it is the one element annotated with
    `@ObjectClassDefinition`; the metatype document is built first, and the
    component's source is created from the manager that pass has updated. */
module Generator {
  import opened Results
  import opened JavaText
  import opened Dom
  import opened Annotations
  import opened AnnotationManager
  import opened XmlHandler
  import opened SrcManager
  import opened IdUtil

  /** An interface annotated with `@ObjectClassDefinition`: its simple name,
      its package, the annotation and the members it encloses. */
  datatype Configuration = Configuration(className: string, packageName: string, ocd: ObjectClassDefinition, members: seq<Member>)

  /** What a round writes: the metatype document and the name of its file,
      and the source of the component. */
  datatype Output = Output(xmlFile: string, document: Element, source: string)

  /** `getConfiguration`: the annotated element when there is exactly one. */
  function GetConfiguration(annotated: seq<Configuration>): (r: Option<Configuration>)
    ensures r.Some? <==> |annotated| == 1
    ensures r.Some? ==> r.value in annotated
  {
    if |annotated| == 1 then Some(annotated[0]) else None
  }

  /** Every annotated method of the interface has a name `toFieldName` accepts. */
  predicate ValidMembers(members: seq<Member>) {
    forall i :: 0 <= i < |Annotated(members)| ==> ValidFieldId(Annotated(members)[i].name)
  }

  /** The body of `process` for one configuration: the manager, then the
      metatype document written to a file named after the class, then the
      source. It fails exactly when a `PREFIX_` field has no constant or a
      method name is not a valid field id. */
  function Generate(c: Configuration): (r: Result<Output>)
    ensures r.Ok? <==> !NullPrefix(c.members) && ValidMembers(c.members)
    ensures r.Ok? ==> r == Emit(c, Manager(c.className, LastPrefix(c.members, ""), Annotated(c.members)))
  {
    var manager :- NewManager(c.className, c.members);
    Emit(c, manager)
  }

  /** What follows the constructor: the document from the manager, then the
      source from the manager the document's `AD` pass has updated. */
  function Emit(c: Configuration, manager: Manager): (r: Result<Output>)
    ensures r.Ok? <==> AllValid(manager)
    ensures r.Ok? ==> r.value.xmlFile == TargetFileName(c.className) && r.value.document == Process(c.ocd, manager).0
    ensures r.Ok? ==> Create(Process(c.ocd, manager).1, c.packageName, c.ocd.id) == Ok(r.value.source)
  {
    var xml := Process(c.ocd, manager);
    ProcessKeepsValidity(c.ocd, manager);
    var source :- Create(xml.1, c.packageName, c.ocd.id);
    Ok(Output(TargetFileName(c.className), xml.0, source))
  }

  /** `process`: nothing happens unless exactly one element is annotated;
      otherwise the outcome is that of generating for it. */
  function Round(annotated: seq<Configuration>): (r: Result<Option<Output>>)
    ensures |annotated| != 1 ==> r == Ok(None)
    ensures |annotated| == 1 ==> r.Ok? == Generate(annotated[0]).Ok?
    ensures |annotated| == 1 && r.Ok? ==> r.value == Some(Generate(annotated[0]).value)
  {
    match GetConfiguration(annotated)
    case None => Ok(None)
    case Some(c) =>
      var out :- Generate(c);
      Ok(Some(out))
  }

  /** The source keeps the manager's own field declarations and getters: only
      the activate part sees the ids the document's pass recorded. */
  lemma EmitSource(c: Configuration, manager: Manager)
    requires Emit(c, manager).Ok?
    ensures Emit(c, manager).value.source == Fill(TargetClassName, c.packageName, c.ocd.id,
      ActivatePart(Process(c.ocd, manager).1).value, FieldDefs(manager).value, Getters(manager).value)
  {
    FieldsAndGettersIgnoreIds(manager, OcdElement(c.ocd));
  }

  /** Why the document comes first: for each method, the generated source
      reads the configuration under the id of the matching `AD` element. */
  lemma SourceReadsDocumentIds(c: Configuration, manager: Manager, i: nat)
    requires Emit(c, manager).Ok? && i < |manager.methods|
    ensures
      var out := Emit(c, manager).value;
      var ad := out.document.children[0].children[i];
      && GetAttr(ad, "id").Some?
      && Contains(out.source, KeyLookup(GetAttr(ad, "id").value))
  {
    var (document, m') := Process(c.ocd, manager);
    ProcessRecordsIds(c.ocd, manager, i);
    CreateReadsKeys(m', c.packageName, c.ocd.id, i);
  }

  /** The document's pass keeps the method names and records, for each
      method, the id its `AD` element carries. */
  lemma ProcessRecordsIds(ocd: ObjectClassDefinition, manager: Manager, i: nat)
    requires AllValid(manager) && i < |manager.methods|
    ensures
      var (document, m') := Process(ocd, manager);
      && AllValid(m') && i < |m'.methods|
      && GetAttr(document.children[0].children[i], "id") == Some(m'.methods[i].adId)
  {
    ProcessKeepsNames(ocd, manager);
    AdIdsInDocument(ocd, manager, i);
  }

  lemma ProcessKeepsValidity(ocd: ObjectClassDefinition, manager: Manager)
    ensures AllValid(Process(ocd, manager).1) <==> AllValid(manager)
  {
    ProcessKeepsNames(ocd, manager);
  }

  /** The document's pass changes no method name, so the names stay valid
      exactly when they were. */
  lemma ProcessKeepsNames(ocd: ObjectClassDefinition, manager: Manager)
    ensures var m' := Process(ocd, manager).1;
      && |m'.methods| == |manager.methods|
      && (forall k :: 0 <= k < |m'.methods| ==> m'.methods[k].name == manager.methods[k].name)
      && (AllValid(m') <==> AllValid(manager))
  {
    var m' := Process(ocd, manager).1;
    assert forall k :: 0 <= k < |m'.methods| ==> m'.methods[k].name == manager.methods[k].name;
  }

  /** Created from the new manager, before the document, the source would
      read the key `""` for every method. */
  lemma SourceBeforeDocument(c: Configuration, manager: Manager, i: nat)
    requires AllValid(manager) && i < |manager.methods|
    requires forall k :: 0 <= k < |manager.methods| ==> manager.methods[k].adId == ""
    ensures
      var early := Create(manager, c.packageName, c.ocd.id);
      early.Ok? && Contains(early.value, KeyLookup(""))
  {
    CreateReadsKeys(manager, c.packageName, c.ocd.id, i);
  }
}
