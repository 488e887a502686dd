# metatype-generator, modelled in Dafny

The metatype generator is a Java annotation processor. It reads one
interface carrying the OSGi `@ObjectClassDefinition` annotation and its
`@AttributeDefinition` methods, then produces two outputs:

- a metatype XML document (`OCD`, `AD`, `Option` and `Designate`
  elements), written to a file named after the interface;
- the Java source of an `AppConfiguration` component, whose
  `activate` method copies each configuration value into a field and
  exposes it through a getter.

This project models the processor's core as pure Dafny functions over
immutable data and proves what that core guarantees.

| module | file | models |
|---|---|---|
| `Results` | results.dfy | `Result` (Java's runtime exceptions as values) and `Option` |
| `JavaText` | java_text.dfy | the `String`/`Character` calls the core relies on: ASCII case mapping, `isBlank`, `equalsIgnoreCase`, `split`, `Collectors.joining`, `String.valueOf(int)` |
| `IdUtil` | id_util.dfy | `toId` (the `Cursor` machine), `createId` (the `SEACursor` machine), `toFieldName` and `capialize` |
| `Dom` | dom.dfy | the W3C DOM operations used: `createElement`, `setAttribute`, `appendChild`, `getAttribute` |
| `Annotations` | annotations.dfy | the annotation values and enclosed elements the compiler hands over |
| `AnnotationManager` | annotation_manager.dfy | collecting methods and the `PREFIX_` constant, the `AD` pass, the type table, the three code fragments |
| `XmlHandler` | xml_handler.dfy | `process`, `addDesignate` and the target file name |
| `SrcManager` | src_manager.dfy | `create`, the `TMPL` template filled in |
| `Generator` | generator.dfy | the body of `MetatypeAnnotationProcessor.process`: one configuration, XML first, then source |

Java's mutable objects become values.

- The `AnnotationManager` is a `Manager` datatype.
- `processAttributeDefinitions` returns the grown parent element together
  with the updated manager. Each method's `adId` is recorded there, where
  the Java code calls `setId`.
- The runtime exceptions the core can raise become `Err`:
  - `StringIndexOutOfBoundsException` from `substring` on an empty part in
    `toFieldName`/`capialize`;
  - `NullPointerException` from a `PREFIX_` field without a constant value.

Notable behaviours of the code:

- A `PREFIX_` field whose constant value is null fails with a
  `NullPointerException`. It is not treated as an empty prefix.
- The XML file is named after the lower-cased class name, not the
  definition's id.
- Field, activate and getter names come from `toFieldName` applied to the
  *method name*, not to the computed `AD` id.
- `default` is written as the values joined by `", "`. Only an empty
  array, or a single blank value, leaves the attribute out. Two blank values
  give `", "`, which is not blank.

## Model

| member | source | states |
|---|---|---|
| IdUtil.ToIdIsRef | metatype-annotation-processing/src/main/java/org/elbe/metatype/generator/IdUtil.java:132-184 | running the `Cursor` over a name, as `toId` does, equals a reference rewrite read left to right: `__` becomes `_`, `_c` becomes `.c`, `$$` becomes `$`, `$_$` becomes `-`, any other `$` run with its `_`s is dropped, and a pending tail is dropped |
| IdUtil.StepWellFormed | metatype-annotation-processing/src/main/java/org/elbe/metatype/generator/IdUtil.java:147-182 | every transition keeps the memory consistent with the state: empty in NORMAL, `_` in IN_LOW, `$` followed only by `_`s in IN_DOLLAR |
| IdUtil.ToIdShorter | metatype-annotation-processing/src/main/java/org/elbe/metatype/generator/IdUtil.java:52-60 | the id is never longer than the method name |
| IdUtil.PendingDropped | metatype-annotation-processing/src/main/java/org/elbe/metatype/generator/IdUtil.java:52-60 | a name ending in a pending `_`, `$` or `$_` gives the same id as the name without it, since `toId` never flushes the memory |
| IdUtil.DoubleLow | metatype-annotation-processing/src/main/java/org/elbe/metatype/generator/IdUtil.java:147-154 | `__` followed by anything becomes a single `_` |
| IdUtil.LowBefore | metatype-annotation-processing/src/main/java/org/elbe/metatype/generator/IdUtil.java:147-154 | `_` followed by a character other than `_` becomes `.` followed by that character |
| IdUtil.DoubleDollar | metatype-annotation-processing/src/main/java/org/elbe/metatype/generator/IdUtil.java:156-161 | `$$` becomes a single `$` |
| IdUtil.DollarLowDollar | metatype-annotation-processing/src/main/java/org/elbe/metatype/generator/IdUtil.java:156-161 | `$_$` becomes `-` |
| IdUtil.DollarLowsDollar | metatype-annotation-processing/src/main/java/org/elbe/metatype/generator/IdUtil.java:156-166 | `$` with two or more `_` then `$` becomes `$`, not `-` |
| IdUtil.DollarDropped | metatype-annotation-processing/src/main/java/org/elbe/metatype/generator/IdUtil.java:156-168 | `$` and any `_`s after it vanish before a character that is neither `_` nor `$` |
| IdUtil.ToIdSimpleName | metatype-annotation-processing/src/test/java/org/elbe/metatype/generator/IdUtilTest.java:17-19 | `simpleName` is its own id |
| IdUtil.ToIdDottedPath | metatype-annotation-processing/src/test/java/org/elbe/metatype/generator/IdUtilTest.java:22-23 | non-empty parts free of `_` and `$`, joined by `_`, come out joined by `.` |
| IdUtil.ToIdEscapedPath | metatype-annotation-processing/src/test/java/org/elbe/metatype/generator/IdUtilTest.java:22-35 | parts free of `_` and `$`, joined by `__`, `$$` or `$_$`, come out joined by `_`, `$` or `-` respectively |
| IdUtil.ToIdDollarsDropped | metatype-annotation-processing/src/test/java/org/elbe/metatype/generator/IdUtilTest.java:30-31 | parts joined by single `$` come out concatenated |
| IdUtil.CreateId | metatype-annotation-processing/src/main/java/org/elbe/metatype/generator/IdUtil.java:77-85 | running the `SEACursor` equals a reference definition: each character is lower-cased, with a `.` put before an upper-case letter that follows a non-upper-case one; no upper-case letter remains |
| IdUtil.CreateIdNoUpper | metatype-annotation-processing/src/main/java/org/elbe/metatype/generator/IdUtil.java:114-120 | a name without upper-case letters is unchanged |
| IdUtil.CreateIdUpperRun | metatype-annotation-processing/src/main/java/org/elbe/metatype/generator/IdUtil.java:122-125 | a name of upper-case letters only is lower-cased, with no dots |
| IdUtil.CreateIdLength | metatype-annotation-processing/src/main/java/org/elbe/metatype/generator/IdUtil.java:114-128 | the id is longer than the name by exactly the number of lower-to-upper boundaries |
| IdUtil.CreateIdWords | metatype-annotation-processing/src/test/java/org/elbe/metatype/generator/IdUtilTest.java:38-44 | camel-case words (leading capitals, then lower-case) come out lower-cased and joined by `.` |
| IdUtil.Capitalize | metatype-annotation-processing/src/main/java/org/elbe/metatype/generator/IdUtil.java:98-100 | fails exactly on the empty part; otherwise has the same length and equals the part ignoring case |
| IdUtil.ToFieldName | metatype-annotation-processing/src/main/java/org/elbe/metatype/generator/IdUtil.java:92-96 | succeeds exactly when the id, without trailing `_`s, is non-empty, does not start with `_` and has no `__`; then the name starts lower-case, has no `_`, and equals the id with its `_`s removed, ignoring case |
| IdUtil.JavaSplitShape | metatype-annotation-processing/src/main/java/org/elbe/metatype/generator/IdUtil.java:93 | `split("_")` yields non-empty parts exactly for valid ids, and the parts hold the id's characters without the `_`s |
| IdUtil.JavaSplitJoin | metatype-annotation-processing/src/main/java/org/elbe/metatype/generator/IdUtil.java:93 | splitting non-empty `_`-free parts joined by `_` gives back the parts |
| IdUtil.ToFieldNameCamelCase | metatype-annotation-processing/src/test/java/org/elbe/metatype/generator/IdUtilTest.java:47-49 | parts joined by `_` become camel case: the first part with its first letter lower-cased, each further part with its first letter upper-cased |
| JavaText.EqualsIgnoreCase | metatype-annotation-processing/src/main/java/org/elbe/metatype/generator/AnnotationManager.java:84 | two texts are equal ignoring case exactly when their lower-case forms are equal |
| JavaText.SplitJoin | metatype-annotation-processing/src/main/java/org/elbe/metatype/generator/IdUtil.java:93 | splitting on a character undoes joining parts that do not contain it |
| JavaText.DecimalRoundTrip | metatype-annotation-processing/src/main/java/org/elbe/metatype/generator/AnnotationManager.java:159 | the decimal text of a number reads back as the number |
| JavaText.RemoveBracketsSuffix | metatype-annotation-processing/src/main/java/org/elbe/metatype/generator/AnnotationManager.java:124-126 | removing `[]` makes an array type name and its component type name equal |
| Dom.SetAttr | metatype-annotation-processing/src/main/java/org/elbe/metatype/generator/XmlHandler.java:68-70 | after `setAttribute` the attribute has the new value, every other attribute reads as before, and tag, namespace and children are untouched |
| Dom.PutAbsent | metatype-annotation-processing/src/main/java/org/elbe/metatype/generator/XmlHandler.java:68-70 | setting an attribute the element lacks appends it to the attribute list and leaves the other attributes alone |
| Annotations.TypeNameInjective | metatype-annotation-processing/src/main/java/org/elbe/metatype/generator/AnnotationManager.java:112-115 | distinct attribute types write distinct `type` values |
| AnnotationManager.NewManager | metatype-annotation-processing/src/main/java/org/elbe/metatype/generator/AnnotationManager.java:67-80 | the constructor fails exactly when some `PREFIX_` field has no constant value; otherwise the prefix is the last such constant (`""` when none), the methods are the annotated ones in order, and no method has an id yet |
| AnnotationManager.CollectIsReference | metatype-annotation-processing/src/main/java/org/elbe/metatype/generator/AnnotationManager.java:72-79 | the loop over enclosed elements, from any starting manager, matches the reference definition of prefix and methods |
| AnnotationManager.IsSingleElement | metatype-annotation-processing/src/main/java/org/elbe/metatype/generator/AnnotationManager.java:82-87 | the manager is a single-element annotation exactly when it has one method whose name is `value` in any case |
| AnnotationManager.AdIdSource | metatype-annotation-processing/src/main/java/org/elbe/metatype/generator/AnnotationManager.java:98-99 | the id is the prefix followed by `createId(className)` for a single-element annotation, otherwise by `toId(name)`; it always starts with the prefix |
| AnnotationManager.SetChecked | metatype-annotation-processing/src/main/java/org/elbe/metatype/generator/AnnotationManager.java:148-152 | a blank value leaves the attribute as it was; any other value is set; other attributes, tag and children do not change |
| AnnotationManager.DefaultOmitted | metatype-annotation-processing/src/main/java/org/elbe/metatype/generator/AnnotationManager.java:154-156 | the joined default is blank exactly when there are no values or a single blank value |
| AnnotationManager.JavaAbs | metatype-annotation-processing/src/main/java/org/elbe/metatype/generator/AnnotationManager.java:159 | `Math.abs` returns the argument or its negation, and the result is negative exactly for `Integer.MIN_VALUE`, whose negation wraps round to itself |
| AnnotationManager.CardinalityMeaning | metatype-annotation-processing/src/main/java/org/elbe/metatype/generator/AnnotationManager.java:158-160 | the cardinality text is empty exactly for 0; otherwise it is the decimal digits of the absolute value, except for `Integer.MIN_VALUE`, which gives `-2147483648` |
| AnnotationManager.CardinalitySign | metatype-annotation-processing/src/main/java/org/elbe/metatype/generator/AnnotationManager.java:158-160 | a cardinality and its negation give the same text |
| AnnotationManager.CardinalityNotBlank | metatype-annotation-processing/src/main/java/org/elbe/metatype/generator/AnnotationManager.java:110 | the `cardinality` attribute is left out exactly when the cardinality is 0 |
| AnnotationManager.SpecialTypeResolution | metatype-annotation-processing/src/main/java/org/elbe/metatype/generator/AnnotationManager.java:111-113 | for a `String`-typed definition on a non-`String` method, `type` comes from the table under the normalised return type, falling back to `String`, and is never `Password` |
| AnnotationManager.ArrayResolvesLikeComponent | metatype-annotation-processing/src/main/java/org/elbe/metatype/generator/AnnotationManager.java:124-126 | an array return type, which is never `String` itself, resolves to the same attribute type as its component type, whether or not the component is `String` |
| AnnotationManager.IntegralPrimitiveAndBoxAgree | metatype-annotation-processing/src/main/java/org/elbe/metatype/generator/AnnotationManager.java:39-48 | `long`, `int`, `short`, `byte` and their wrapper classes map to the same attribute type |
| AnnotationManager.OtherPrimitiveAndBoxAgree | metatype-annotation-processing/src/main/java/org/elbe/metatype/generator/AnnotationManager.java:45-54 | `char`, `double`, `float`, `boolean` and their wrapper classes map to the same attribute type |
| AnnotationManager.OptionElements | metatype-annotation-processing/src/main/java/org/elbe/metatype/generator/AnnotationManager.java:139-146 | one `Option` element per option, in order, carrying its `value` and `label` |
| AnnotationManager.AdElement | metatype-annotation-processing/src/main/java/org/elbe/metatype/generator/AnnotationManager.java:95-120 | the `AD` element has no namespace, and its children are exactly the option elements |
| AnnotationManager.AdBySettersIsAdElement | metatype-annotation-processing/src/main/java/org/elbe/metatype/generator/AnnotationManager.java:101-116 | the sequence of `setAttribute`/`setAttributeChecked` calls on a fresh element produces exactly the attribute list of the reference `AD` element |
| AnnotationManager.AdElementLabels | metatype-annotation-processing/src/main/java/org/elbe/metatype/generator/AnnotationManager.java:101-104 | `id` is the computed id; `name`, `description` and `default` are present exactly when not blank |
| AnnotationManager.AdElementLimits | metatype-annotation-processing/src/main/java/org/elbe/metatype/generator/AnnotationManager.java:105-116 | `min` and `max` are present when not blank; `required="false"` appears only for optional attributes; `cardinality` appears when non-zero; `type` is always present and names the effective type |
| AnnotationManager.AdElementNothingElse | metatype-annotation-processing/src/main/java/org/elbe/metatype/generator/AnnotationManager.java:101-116 | an `AD` element has no attribute beyond these nine |
| AnnotationManager.ProcessAttributeDefinitions | metatype-annotation-processing/src/main/java/org/elbe/metatype/generator/AnnotationManager.java:93-122 | the parent keeps its own data and earlier children, and gains one `AD` child per method in order; each method gets its id recorded and nothing else about it changes |
| AnnotationManager.AdIdsRecorded | metatype-annotation-processing/src/main/java/org/elbe/metatype/generator/AnnotationManager.java:98-101 | the id written on the i-th `AD` element is the id recorded for the i-th method |
| AnnotationManager.AdPassIdempotent | metatype-annotation-processing/src/main/java/org/elbe/metatype/generator/AnnotationManager.java:98-100 | running the pass again on the updated manager records the same ids |
| AnnotationManager.FieldLine | metatype-annotation-processing/src/main/java/org/elbe/metatype/generator/AnnotationManager.java:192-195 | fails exactly when the method name is not a valid field id; otherwise it declares a private field of the simple type, named by `toFieldName` of the method name, with the initializer ` = ""` exactly when the type is `String` |
| AnnotationManager.ActivateLine | metatype-annotation-processing/src/main/java/org/elbe/metatype/generator/AnnotationManager.java:182-183 | fails exactly when the method name is not a valid field id; otherwise it assigns to `this.<field>`, for the field `toFieldName` gives, the value stored under the method's id, cast to the simple type |
| AnnotationManager.LineHasKey | metatype-annotation-processing/src/main/java/org/elbe/metatype/generator/AnnotationManager.java:182-183 | the activate line reads the configuration under the method's recorded id |
| AnnotationManager.GetterBlock | metatype-annotation-processing/src/main/java/org/elbe/metatype/generator/AnnotationManager.java:201-204 | fails exactly when the method name is not a valid field id; otherwise it holds the signature `public <simple type> get<Field>() {` and the statement `return <field>;`, for the field `toFieldName` gives |
| AnnotationManager.GetterNameRoundTrip | metatype-annotation-processing/src/main/java/org/elbe/metatype/generator/AnnotationManager.java:202-204 | the getter is named `get` plus the field name with its first letter upper-cased; lower-casing that letter gives the field name back |
| AnnotationManager.FieldDefs | metatype-annotation-processing/src/main/java/org/elbe/metatype/generator/AnnotationManager.java:190-198 | fails exactly when some method name is not a valid field id |
| AnnotationManager.ActivatePart | metatype-annotation-processing/src/main/java/org/elbe/metatype/generator/AnnotationManager.java:180-185 | fails exactly when some method name is not a valid field id |
| AnnotationManager.Getters | metatype-annotation-processing/src/main/java/org/elbe/metatype/generator/AnnotationManager.java:200-206 | fails exactly when some method name is not a valid field id |
| AnnotationManager.GettersHasBlock | metatype-annotation-processing/src/main/java/org/elbe/metatype/generator/AnnotationManager.java:200-206 | each method's getter occurs in the getter block |
| AnnotationManager.GettersInOrder | metatype-annotation-processing/src/main/java/org/elbe/metatype/generator/AnnotationManager.java:200-206 | the getters follow the order of the methods: each getter is followed, after a line feed, by the next method's getter |
| AnnotationManager.GetterReturnsDeclaredField | metatype-annotation-processing/src/main/java/org/elbe/metatype/generator/AnnotationManager.java:182-204 | the name a method's field line declares is the field its activate line assigns and its getter returns |
| AnnotationManager.FieldDefsOneLinePerMethod | metatype-annotation-processing/src/main/java/org/elbe/metatype/generator/AnnotationManager.java:190-198 | for names without line breaks, splitting the field block at `\n` gives back each method's declaration, in order |
| AnnotationManager.ActivatePartOneLinePerMethod | metatype-annotation-processing/src/main/java/org/elbe/metatype/generator/AnnotationManager.java:180-185 | for names and ids without line breaks, splitting the activate block at `\n` gives back each method's assignment, in order |
| AnnotationManager.ActivatePartHasLine | metatype-annotation-processing/src/main/java/org/elbe/metatype/generator/AnnotationManager.java:180-185 | each method's assignment occurs in the activate block |
| AnnotationManager.FieldsAndGettersIgnoreIds | metatype-annotation-processing/src/main/java/org/elbe/metatype/generator/AnnotationManager.java:190-206 | the field and getter blocks do not depend on the ids, so they are the same before and after the `AD` pass |
| AnnotationManager.ActivateReadsAdIds | metatype-annotation-processing/src/main/java/org/elbe/metatype/generator/AnnotationManager.java:182-183 | after the pass, the i-th assignment reads the key the i-th `AD` element carries; before it, it reads `""` |
| XmlHandler.OcdElement | metatype-annotation-processing/src/main/java/org/elbe/metatype/generator/XmlHandler.java:66-70 | the `OCD` element always carries `id`, `name` and `description`, even when blank |
| XmlHandler.Designate | metatype-annotation-processing/src/main/java/org/elbe/metatype/generator/XmlHandler.java:77-85 | `Designate` has `pid` set to the id and one `Object` child whose `ocdref` is the same id |
| XmlHandler.AddDesignate | metatype-annotation-processing/src/main/java/org/elbe/metatype/generator/XmlHandler.java:77-79 | the `Designate` element is appended last under the root, which is otherwise unchanged |
| XmlHandler.Process | metatype-annotation-processing/src/main/java/org/elbe/metatype/generator/XmlHandler.java:61-75 | the root is `metatype:MetaData` in the metatype 1.4.0 namespace, with exactly two children: the `OCD` element after the `AD` pass, then `Designate` |
| XmlHandler.ProcessShape | metatype-annotation-processing/src/main/java/org/elbe/metatype/generator/XmlHandler.java:61-75 | the `OCD` element carries the definition's id, name and description and one `AD` child per method in order; the second child designates the same id |
| XmlHandler.DesignateRefersToOcd | metatype-annotation-processing/src/main/java/org/elbe/metatype/generator/XmlHandler.java:73-84 | `pid`, `ocdref` and the `OCD` id are the same |
| XmlHandler.AdIdsInDocument | metatype-annotation-processing/src/main/java/org/elbe/metatype/generator/XmlHandler.java:72 | the id of the i-th `AD` element in the document is the id the pass recorded for the i-th method |
| XmlHandler.TargetFileName | metatype-annotation-processing/src/main/java/org/elbe/metatype/generator/XmlHandler.java:51-53 | the file name is the class name, lower-cased character by character, followed by `.xml` |
| XmlHandler.TargetFileNameCaseInsensitive | metatype-annotation-processing/src/main/java/org/elbe/metatype/generator/XmlHandler.java:51-53 | two class names give the same file exactly when they are equal ignoring case |
| SrcManager.Create | metatype-annotation-processing/src/main/java/org/elbe/metatype/generator/SrcManager.java:50-53 | fails exactly when the fragments fail, with the same error; otherwise it is the template filled with `AppConfiguration`, the package, the pid and the activate, field and getter blocks |
| SrcManager.CreateReadsKeys | metatype-annotation-processing/src/main/java/org/elbe/metatype/generator/SrcManager.java:50-53 | the generated source reads every method's recorded id from the configuration map |
| SrcManager.FillStartsWithPackage | metatype-annotation-processing/src/main/java/org/elbe/metatype/generator/SrcManager.java:11 | the source starts with the package declaration |
| SrcManager.FillNamesClassAndPid | metatype-annotation-processing/src/main/java/org/elbe/metatype/generator/SrcManager.java:20-22 | the source names the class in `configurationPid`, `service` and the class declaration, and defines `CONFIG_PID` as the pid |
| SrcManager.FillLayout | metatype-annotation-processing/src/main/java/org/elbe/metatype/generator/SrcManager.java:11-36 | the field block follows the header; the activate block follows the `if (configuration != null) {` line and precedes the closing braces; the getters precede the final `}` |
| SrcManager.FillContainsBlocks | metatype-annotation-processing/src/main/java/org/elbe/metatype/generator/SrcManager.java:24-34 | all three blocks occur in the source |
| SrcManager.FillInjective | metatype-annotation-processing/src/main/java/org/elbe/metatype/generator/SrcManager.java:11-36 | given the lengths of the field and activate blocks, the source determines all three blocks |
| Generator.GetConfiguration | metatype-annotation-processing/src/main/java/org/elbe/metatype/generator/MetatypeAnnotationProcessor.java:90-95 | there is a configuration exactly when exactly one element is annotated, and it is that element |
| Generator.Generate | metatype-annotation-processing/src/main/java/org/elbe/metatype/generator/MetatypeAnnotationProcessor.java:57-79 | generation fails exactly when a `PREFIX_` field has no constant or a method name is not a valid field id; otherwise it emits from the manager the constructor builds |
| Generator.Emit | metatype-annotation-processing/src/main/java/org/elbe/metatype/generator/MetatypeAnnotationProcessor.java:62-79 | the document is the one `process` builds, in a file named after the class; the source is `create` applied to the manager as the XML pass left it |
| Generator.Round | metatype-annotation-processing/src/main/java/org/elbe/metatype/generator/MetatypeAnnotationProcessor.java:53-88 | with zero or several annotated elements nothing is produced; with exactly one, the round's outcome is that element's generation |
| Generator.EmitSource | metatype-annotation-processing/src/main/java/org/elbe/metatype/generator/MetatypeAnnotationProcessor.java:71-79 | the source combines the field and getter blocks of the manager as built with the activate block of the manager after the pass |
| Generator.SourceReadsDocumentIds | metatype-annotation-processing/src/main/java/org/elbe/metatype/generator/MetatypeAnnotationProcessor.java:61-79 | every `AD` element in the document has an id, and the source reads that id from the configuration map |
| Generator.SourceBeforeDocument | metatype-annotation-processing/src/main/java/org/elbe/metatype/generator/MetatypeAnnotationProcessor.java:61-79 | building the source before the XML would read the empty key `""` for every method, which is why the XML comes first |

## Left out

- `NioHandler` and `copyCode`: they copy files on disk and are not part of this model.
- `XmlHandler.write`: XML serialisation through a `Transformer`, indentation and the `File` are left out. Only the document and the file name are modelled.
- `MetatypeAnnotationProcessor`: the `Filer` resource, the `PrintWriter` and the logging of caught `ParserConfigurationException`, `TransformerException` and `IOException` are I/O and are left out. The processor's `return true` after the first configuration is modelled by `Round` handling one annotation type.
- Generator.Emit: when the source fails, the XML file has already been written in Java; the model only returns the failure.
- Generator.Round: models one annotation type of the round; the loop over `annotations` is not modelled.
- A second `process` call on the same `Document` would try to add a second root element. The model builds a fresh document each time.
- `Types.isSameType(type, String)` is a boolean flag `isString` on the type reference, and `TypeMirror.toString()` is its `name`.
- JavaText.ToLower and JavaText.ToUpper: case mapping covers ASCII letters only. `Character.isUpperCase` and `toLowerCase` on other scripts are not modelled.
- Dom.PutAbsent: the model keeps attributes in the order they are set. The JDK's DOM keeps an element's attributes sorted by name, so the written XML lists them alphabetically; no property here depends on that order.
- Locale: `String.toLowerCase` and `toUpperCase` use the default locale (IdUtil.java:95 and :99, AnnotationManager.java:204, XmlHandler.java:52). The model assumes a locale with ASCII case mapping; under a Turkish locale `I` lowers to a dotless `ı` and `i` uppers to a dotted `İ`, which the model does not cover.
- Sets of annotated elements are modelled as sequences. Only their size and membership matter.
- `ObjectClassDefinition` attributes other than `id`, `name` and `description`, and `AttributeDefinition` attributes the code never reads, are not modelled.
