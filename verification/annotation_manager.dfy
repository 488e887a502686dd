/** `AnnotationManager`: the annotated methods of one configuration
    interface, the `AD` elements of the metatype XML built from them, and the
    three pieces of generated Java source (field declarations, the body of
    `activate`, the getters). */
module AnnotationManager {
  import opened Results
  import opened JavaText
  import opened IdUtil
  import opened Dom
  import opened Annotations

  const PrefixField := "PREFIX_"
  const Indent1 := "    "
  const Indent3 := "            "

  /** `MethodData`: one annotated method. `adId` is `""` until the `AD` pass
      has assigned it. */
  datatype MethodData = MethodData(name: string, ad: AttributeDefinition, returnType: TypeRef, adId: string)

  /** The manager's state: the interface's simple name, the id prefix and the
      annotated methods in declaration order. */
  datatype Manager = Manager(className: string, prefix: string, methods: seq<MethodData>)

  // ===========================================================================
  // Construction

  /** The constructor's loop over the enclosed elements: a field called
      `PREFIX_` sets the prefix to its constant (a missing constant makes
      `toString()` throw), an annotated method is appended with an empty id,
      anything else is skipped. */
  function Collect(m: Manager, members: seq<Member>): (r: Result<Manager>)
    decreases |members|
  {
    if |members| == 0 then Ok(m)
    else
      match members[0]
      case FieldMember(name, constant) =>
        if name != PrefixField then Collect(m, members[1..])
        else if constant.None? then Err(NullPointer)
        else Collect(m.(prefix := constant.value), members[1..])
      case MethodMember(name, ad, returnType) =>
        if ad.None? then Collect(m, members[1..])
        else Collect(m.(methods := m.methods + [MethodData(name, ad.value, returnType, "")]), members[1..])
      case OtherMember(_) => Collect(m, members[1..])
  }

  /** The `AnnotationManager` constructor. It fails exactly when a `PREFIX_`
      field has no constant value; otherwise the methods are the annotated
      ones in declaration order, none with an id yet, and the prefix is the
      last `PREFIX_` constant, `""` when there is none. */
  function NewManager(className: string, members: seq<Member>): (r: Result<Manager>)
    ensures r.Ok? <==> !NullPrefix(members)
    ensures r.Ok? ==> r.value == Manager(className, LastPrefix(members, ""), Annotated(members))
    ensures r.Ok? ==> forall i :: 0 <= i < |r.value.methods| ==> r.value.methods[i].adId == ""
  {
    CollectIsReference(Manager(className, "", []), members);
    Collect(Manager(className, "", []), members)
  }

  /** Some `PREFIX_` field lacks a constant value. */
  predicate NullPrefix(members: seq<Member>) {
    exists i :: 0 <= i < |members| && members[i].FieldMember? && members[i].name == PrefixField && members[i].constant.None?
  }

  /** The constant of the last `PREFIX_` field, `dft` when there is none. */
  function LastPrefix(members: seq<Member>, dft: string): string
    decreases |members|
  {
    if |members| == 0 then dft
    else
      var m := members[|members| - 1];
      if m.FieldMember? && m.name == PrefixField && m.constant.Some? then m.constant.value
      else LastPrefix(members[..|members| - 1], dft)
  }

  /** The annotated methods, in order, with empty ids. */
  function Annotated(members: seq<Member>): (r: seq<MethodData>)
    ensures forall i :: 0 <= i < |r| ==> r[i].adId == ""
    decreases |members|
  {
    if |members| == 0 then []
    else
      var m := members[|members| - 1];
      var rest := Annotated(members[..|members| - 1]);
      if m.MethodMember? && m.ad.Some? then rest + [MethodData(m.name, m.ad.value, m.returnType, "")] else rest
  }

  lemma {:induction false} CollectIsReference(m: Manager, members: seq<Member>)
    ensures Collect(m, members).Ok? <==> !NullPrefix(members)
    ensures Collect(m, members).Ok? ==>
      Collect(m, members).value == Manager(m.className, LastPrefix(members, m.prefix), m.methods + Annotated(members))
    decreases |members|
  {
    if |members| == 0 {
      assert m.methods + [] == m.methods;
    } else {
      var h, t := members[0], members[1..];
      var m' := match h
        case FieldMember(name, constant) =>
          if name == PrefixField && constant.Some? then m.(prefix := constant.value) else m
        case MethodMember(name, ad, returnType) =>
          if ad.Some? then m.(methods := m.methods + [MethodData(name, ad.value, returnType, "")]) else m
        case OtherMember(_) => m;
      CollectIsReference(m', t);
      PrefixSplit(h, t, m.prefix);
      AnnotatedSplit(h, t);
      assert members == [h] + t;
      if h.FieldMember? && h.name == PrefixField && h.constant.None? {
        assert NullPrefix(members) by { assert members[0] == h; }
      } else {
        assert NullPrefix(members) <==> NullPrefix(t) by {
          if NullPrefix(t) {
            var i :| 0 <= i < |t| && t[i].FieldMember? && t[i].name == PrefixField && t[i].constant.None?;
            assert members[i + 1] == t[i];
          }
        }
      }
    }
  }

  /** Reading the first member, then the rest, gives the same last prefix. */
  lemma {:induction false} PrefixSplit(h: Member, t: seq<Member>, dft: string)
    ensures LastPrefix([h] + t, dft) ==
      LastPrefix(t, if h.FieldMember? && h.name == PrefixField && h.constant.Some? then h.constant.value else dft)
    decreases |t|
  {
    if |t| > 0 {
      assert ([h] + t)[..|[h] + t| - 1] == [h] + t[..|t| - 1];
      PrefixSplit(h, t[..|t| - 1], dft);
    } else {
      assert ([h] + t)[..0] == [];
    }
  }

  lemma {:induction false} AnnotatedSplit(h: Member, t: seq<Member>)
    ensures Annotated([h] + t) ==
      (if h.MethodMember? && h.ad.Some? then [MethodData(h.name, h.ad.value, h.returnType, "")] else []) + Annotated(t)
    decreases |t|
  {
    if |t| > 0 {
      assert ([h] + t)[..|[h] + t| - 1] == [h] + t[..|t| - 1];
      AnnotatedSplit(h, t[..|t| - 1]);
    } else {
      assert ([h] + t)[..0] == [];
    }
  }

  // ===========================================================================
  // Ids

  /** `isSingleElementAnnotation`: exactly one method, called `value` in any
      letter case. */
  function IsSingleElement(m: Manager): (r: bool)
    ensures r <==> |m.methods| == 1 && LowerAll(m.methods[0].name) == "value"
  {
    if |m.methods| == 1 then EqualsIgnoreCase("value", m.methods[0].name) else false
  }

  /** The id given to a method's `AD` element. */
  function AdId(m: Manager, meth: MethodData): string
  {
    m.prefix + (if IsSingleElement(m) then CreateId(m.className) else ToId(meth.name))
  }

  /** In a single-element annotation the id comes from the interface name
      (and not the method name); otherwise from the method name. */
  lemma AdIdSource(m: Manager, i: nat)
    requires i < |m.methods|
    ensures IsSingleElement(m) ==> AdId(m, m.methods[i]) == m.prefix + CreateId(m.className)
    ensures !IsSingleElement(m) ==> AdId(m, m.methods[i]) == m.prefix + ToId(m.methods[i].name)
    ensures StartsWith(AdId(m, m.methods[i]), m.prefix)
  {
  }

  // ===========================================================================
  // AD attributes

  /** `setAttributeChecked`: the value is stored only when it is not blank. */
  function Checked(value: string): Option<string>
  {
    if IsBlank(value) then None else Some(value)
  }

  function SetChecked(e: Element, name: string, value: string): (r: Element)
    ensures GetAttr(r, name) == (if IsBlank(value) then GetAttr(e, name) else Some(value))
    ensures forall n :: n != name ==> GetAttr(r, n) == GetAttr(e, n)
    ensures r.ns == e.ns && r.tag == e.tag && r.children == e.children
  {
    if IsBlank(value) then e else SetAttr(e, name, value)
  }

  /** On an element without the attribute, a checked set appends it when
      the value is not blank. */
  lemma SetCheckedAbsent(e: Element, name: string, value: string)
    requires name !in Names(e.attrs)
    ensures SetChecked(e, name, value) == e.(attrs := e.attrs + Optional(name, Checked(value)))
  {
    LookupNames(e.attrs, name);
    if !IsBlank(value) {
      PutAbsent(e.attrs, name, value);
    }
  }

  /** `arrayToString`: the default values separated by `", "`. */
  function DefaultText(values: seq<string>): string
  {
    Join(values, ", ")
  }

  /** The `default` attribute is left out only for no default values or a
      single blank one: with two or more values the `", "` separator is never
      blank, so even a list of blank values is written. */
  lemma DefaultOmitted(values: seq<string>)
    ensures IsBlank(DefaultText(values)) <==> |values| == 0 || (|values| == 1 && IsBlank(values[0]))
  {
    if |values| == 1 {
      assert DefaultText(values) == values[0];
    } else if |values| > 1 {
      var rest := DefaultText(values[1..]);
      assert DefaultText(values) == values[0] + (", " + rest);
      BlankAppend(values[0], ", " + rest);
      BlankAppend(", ", rest);
      assert !IsBlank(", ") by { assert ", "[0] == ',' && !IsWhitespace(','); }
    }
  }

  lemma BlankAppend(a: string, b: string)
    ensures IsBlank(a + b) <==> IsBlank(a) && IsBlank(b)
  {
    if IsBlank(a) && IsBlank(b) {
      forall i | 0 <= i < |a + b|
        ensures IsWhitespace((a + b)[i])
      {
        if i >= |a| {
          assert (a + b)[i] == b[i - |a|];
        }
      }
    }
    if IsBlank(a + b) {
      forall i | 0 <= i < |a|
        ensures IsWhitespace(a[i])
      {
        assert (a + b)[i] == a[i];
      }
      forall i | 0 <= i < |b|
        ensures IsWhitespace(b[i])
      {
        assert (a + b)[|a| + i] == b[i];
      }
    }
  }

  /** `Math.abs` on a Java `int`: the negation of the smallest `int` wraps
      round to itself. */
  function JavaAbs(v: Int32): (r: Int32)
    ensures r == v || r as int == -(v as int)
    ensures r >= 0 <==> v != MinInt32
  {
    if v >= 0 then v
    else if v == MinInt32 then MinInt32
    else -v
  }

  /** `toString(cardinality, 0)`: empty for 0, else the decimal text of the
      absolute value. */
  function CardinalityText(v: Int32): string
  {
    if v == 0 then "" else IntText(JavaAbs(v))
  }

  /** The text reads back as the absolute value of the cardinality; only the
      smallest `int`, whose absolute value wraps, keeps a minus sign. */
  lemma CardinalityMeaning(v: Int32)
    ensures CardinalityText(v) == "" <==> v == 0
    ensures v != 0 && v != MinInt32 ==>
      AllDigits(CardinalityText(v)) && ParseDecimal(CardinalityText(v)) == (if v < 0 then -v else v)
    ensures v == MinInt32 ==>
      var r := CardinalityText(v);
      |r| > 1 && r[0] == '-' && AllDigits(r[1..]) && ParseDecimal(r[1..]) == 0x8000_0000
  {
    if v == MinInt32 {
      DecimalRoundTrip(0x8000_0000);
      assert CardinalityText(v)[1..] == DecimalText(0x8000_0000);
    } else if v != 0 {
      DecimalRoundTrip(JavaAbs(v));
    }
  }

  /** The sign of a cardinality is ignored: `n` and `-n` give the same text. */
  lemma CardinalitySign(v: Int32)
    requires v != MinInt32
    ensures CardinalityText(v) == CardinalityText(-v)
  {
  }

  /** A non-zero cardinality is never blank, so it is always written. */
  lemma CardinalityNotBlank(v: Int32)
    ensures IsBlank(CardinalityText(v)) <==> v == 0
  {
    CardinalityMeaning(v);
    var r := CardinalityText(v);
    if v == 0 {
    } else if v == MinInt32 {
      assert !IsWhitespace(r[0]);
    } else {
      assert '0' <= r[0] <= '9';
    }
  }

  // ===========================================================================
  // Type resolution

  /** `typeMap`: `java.lang.String` and the primitive and boxed names of the
      other eight types the metatype schema knows, `None` for any other name. */
  function TypeMap(name: string): Option<AttributeType>
  {
    if name == "java.lang.String" then Some(StringType)
    else if name == "long" || name == "java.lang.Long" then Some(LongType)
    else if name == "int" || name == "java.lang.Integer" then Some(IntegerType)
    else if name == "short" || name == "java.lang.Short" then Some(ShortType)
    else if name == "char" || name == "java.lang.Character" then Some(CharacterType)
    else if name == "byte" || name == "java.lang.Byte" then Some(ByteType)
    else if name == "double" || name == "java.lang.Double" then Some(DoubleType)
    else if name == "float" || name == "java.lang.Float" then Some(FloatType)
    else if name == "boolean" || name == "java.lang.Boolean" then Some(BooleanType)
    else None
  }

  /** `typeMap.getOrDefault(name, STRING)`. */
  function Resolve(name: string): AttributeType
  {
    if TypeMap(name).Some? then TypeMap(name).value else StringType
  }

  /** `normalize`: the type name with every `[]` removed. */
  function Normalize(t: TypeRef): string
  {
    RemoveBrackets(t.name)
  }

  /** `isSpecialType`: the annotation says `STRING` but the method does not
      return `String`. */
  predicate IsSpecialType(ad: AttributeDefinition, t: TypeRef) {
    ad.attrType == StringType && !t.isString
  }

  /** The `type` attribute's value: the declared type unless it is special,
      in which case the table decides. */
  function EffectiveType(ad: AttributeDefinition, t: TypeRef): AttributeType
  {
    if IsSpecialType(ad, t) then Resolve(Normalize(t)) else ad.attrType
  }

  /** A special type resolves through the table: to `STRING` for a name the
      table does not list, and never to `PASSWORD`. */
  lemma SpecialTypeResolution(ad: AttributeDefinition, t: TypeRef)
    requires IsSpecialType(ad, t)
    ensures TypeMap(Normalize(t)).None? ==> EffectiveType(ad, t) == StringType
    ensures TypeMap(Normalize(t)).Some? ==> EffectiveType(ad, t) == TypeMap(Normalize(t)).value
    ensures EffectiveType(ad, t) != PasswordType
  {
  }

  /** An array return type resolves like its component type. An array is
      never `String`; the component is `String` only when its name is
      `java.lang.String`. */
  lemma ArrayResolvesLikeComponent(ad: AttributeDefinition, component: string, componentIsString: bool)
    requires componentIsString ==> component == "java.lang.String"
    ensures EffectiveType(ad, TypeRef(component + "[]", false)) == EffectiveType(ad, TypeRef(component, componentIsString))
  {
    RemoveBracketsSuffix(component);
    if componentIsString {
      StringNameHasNoBrackets();
      RemoveBracketsFree(component);
    }
  }

  lemma StringNameHasNoBrackets()
    ensures '[' !in "java.lang.String"
  {
  }

  /** A primitive and its box resolve to the same attribute type: the
      integral types. */
  lemma IntegralPrimitiveAndBoxAgree()
    ensures Resolve("long") == Resolve("java.lang.Long") == LongType
    ensures Resolve("int") == Resolve("java.lang.Integer") == IntegerType
    ensures Resolve("short") == Resolve("java.lang.Short") == ShortType
    ensures Resolve("byte") == Resolve("java.lang.Byte") == ByteType
  {
  }

  /** The same for `char`, the floating-point types and `boolean`. */
  lemma OtherPrimitiveAndBoxAgree()
    ensures Resolve("char") == Resolve("java.lang.Character") == CharacterType
    ensures Resolve("double") == Resolve("java.lang.Double") == DoubleType
    ensures Resolve("float") == Resolve("java.lang.Float") == FloatType
    ensures Resolve("boolean") == Resolve("java.lang.Boolean") == BooleanType
  {
  }

  // ===========================================================================
  // AD elements

  /** `process(ad, options, doc)`: one `Option` element per option, in
      order, each carrying the option's value and label. */
  function OptionElements(options: seq<OptionEntry>): (r: seq<Element>)
    ensures |r| == |options|
    ensures forall i :: 0 <= i < |r| ==>
      r[i].tag == "Option" && r[i].children == []
      && GetAttr(r[i], "value") == Some(options[i].value)
      && GetAttr(r[i], "label") == Some(options[i].labelText)
  {
    if |options| == 0 then []
    else
      var o := SetAttr(SetAttr(NewElement("Option"), "value", options[0].value), "label", options[0].labelText);
      [o] + OptionElements(options[1..])
  }

  /** The attributes an `AD` element can carry. */
  predicate AdAttribute(n: string) {
    || n == "id" || n == "name" || n == "description" || n == "default" || n == "min"
    || n == "max" || n == "required" || n == "cardinality" || n == "type"
  }

  /** The nine attribute names are pairwise different. */
  lemma AdAttributeNamesDistinct()
    ensures "id" != "name" && "id" != "description" && "id" != "default" && "id" != "min"
    ensures "id" != "max" && "id" != "required" && "id" != "cardinality" && "id" != "type"
    ensures "name" != "description" && "name" != "default" && "name" != "min" && "name" != "max"
    ensures "name" != "required" && "name" != "cardinality" && "name" != "type"
    ensures "description" != "default" && "description" != "min" && "description" != "max"
    ensures "description" != "required" && "description" != "cardinality" && "description" != "type"
    ensures "default" != "min" && "default" != "max" && "default" != "required"
    ensures "default" != "cardinality" && "default" != "type"
    ensures "min" != "max" && "min" != "required" && "min" != "cardinality" && "min" != "type"
    ensures "max" != "required" && "max" != "cardinality" && "max" != "type"
    ensures "required" != "cardinality" && "required" != "type" && "cardinality" != "type"
  {
    assert "min"[1] != "max"[1];
    assert "name"[0] != "type"[0];
    assert "description"[0] != "cardinality"[0];
  }

  /** The attribute `name` if it has a value, nothing otherwise. */
  function Optional(name: string, value: Option<string>): (r: seq<Attr>)
    ensures forall n :: Lookup(r, n) == (if n == name then value else None)
  {
    if value.None? then [] else [(name, value.value)]
  }

  /** `required="false"` for an optional attribute, nothing for a required one. */
  function RequiredValue(ad: AttributeDefinition): (r: Option<string>)
    ensures r == (if ad.required then None else Some("false"))
  {
    assert !IsBlank("false") by { assert "false"[0] == 'f' && !IsWhitespace('f'); }
    if ad.required then None else Checked("false")
  }

  /** The attributes the loop body sets, in the order it sets them: `id`, the
      checked `name`, `description`, `default`, `min` and `max`, `required`
      for an optional attribute, the checked `cardinality`, and `type`. The
      element is fresh and the names differ, so each `setAttribute` appends
      (`Dom.PutAbsent`). */
  function AdAttrs(meth: MethodData, id: string): seq<Attr>
  {
    var ad := meth.ad;
    [("id", id)]
    + Optional("name", Checked(ad.name))
    + Optional("description", Checked(ad.description))
    + Optional("default", Checked(DefaultText(ad.defaultValue)))
    + Optional("min", Checked(ad.min))
    + Optional("max", Checked(ad.max))
    + Optional("required", RequiredValue(ad))
    + Optional("cardinality", Checked(CardinalityText(ad.cardinality)))
    + [("type", TypeName(EffectiveType(ad, meth.returnType)))]
  }

  /** The `AD` element for one method, given its id: the attributes of
      `AdAttrs` and one `Option` child per option. */
  function AdElement(meth: MethodData, id: string): (e: Element)
    ensures e.tag == "AD" && e.ns == None
    ensures e.children == OptionElements(meth.ad.options)
  {
    Element(None, "AD", AdAttrs(meth, id), OptionElements(meth.ad.options))
  }

  /** The loop body of `processAttributeDefinitions` as written: a fresh `AD`
      element whose attributes are set one call after the other. */
  function AdBySetters(meth: MethodData, id: string): Element
  {
    var e := SetAttr(Element(None, "AD", [], OptionElements(meth.ad.options)), "id", id);
    SetLimits(SetLabels(e, meth.ad), meth)
  }

  /** The checked `name`, `description` and `default`. */
  function SetLabels(e: Element, ad: AttributeDefinition): Element
  {
    var e1 := SetChecked(e, "name", ad.name);
    var e2 := SetChecked(e1, "description", ad.description);
    SetChecked(e2, "default", DefaultText(ad.defaultValue))
  }

  /** The checked `min` and `max`, `required` for an optional attribute, the
      checked `cardinality`, and `type`. */
  function SetLimits(e: Element, meth: MethodData): Element
  {
    var ad := meth.ad;
    var e4 := SetChecked(e, "min", ad.min);
    var e5 := SetChecked(e4, "max", ad.max);
    var e6 := if ad.required then e5 else SetChecked(e5, "required", "false");
    var e7 := SetChecked(e6, "cardinality", CardinalityText(ad.cardinality));
    SetAttr(e7, "type", TypeName(EffectiveType(ad, meth.returnType)))
  }

  /** Every call sets a name not set before, so each one appends and the
      calls build exactly `AdElement`. */
  lemma AdBySettersIsAdElement(meth: MethodData, id: string)
    ensures AdBySetters(meth, id) == AdElement(meth, id)
  {
    var ad := meth.ad;
    var e0 := SetAttr(Element(None, "AD", [], OptionElements(ad.options)), "id", id);
    assert e0.attrs == [("id", id)] && RankedUpTo(e0, 1) by {
      assert AdRank("id") == 1;
    }
    SetLabelsAppends(e0, ad);
    SetLimitsAppends(SetLabels(e0, ad), meth);
  }

  lemma SetLabelsAppends(e: Element, ad: AttributeDefinition)
    requires RankedUpTo(e, 1)
    ensures SetLabels(e, ad) == e.(attrs := e.attrs
      + Optional("name", Checked(ad.name))
      + Optional("description", Checked(ad.description))
      + Optional("default", Checked(DefaultText(ad.defaultValue))))
    ensures RankedUpTo(SetLabels(e, ad), 4)
  {
    StepChecked(e, 1, "name", ad.name);
    var e1 := SetChecked(e, "name", ad.name);
    StepChecked(e1, 2, "description", ad.description);
    var e2 := SetChecked(e1, "description", ad.description);
    StepChecked(e2, 3, "default", DefaultText(ad.defaultValue));
  }

  lemma SetLimitsAppends(e: Element, meth: MethodData)
    requires RankedUpTo(e, 4)
    ensures SetLimits(e, meth) == e.(attrs := e.attrs
      + Optional("min", Checked(meth.ad.min))
      + Optional("max", Checked(meth.ad.max))
      + Optional("required", RequiredValue(meth.ad))
      + Optional("cardinality", Checked(CardinalityText(meth.ad.cardinality)))
      + [("type", TypeName(EffectiveType(meth.ad, meth.returnType)))])
  {
    var ad := meth.ad;
    SetRangeAppends(e, ad);
    var e5 := SetChecked(SetChecked(e, "min", ad.min), "max", ad.max);
    SetCountAppends(e5, ad);
    var e7 := SetChecked(if ad.required then e5 else SetChecked(e5, "required", "false"), "cardinality", CardinalityText(ad.cardinality));
    SetTypeAppends(e7, TypeName(EffectiveType(ad, meth.returnType)));
  }

  lemma SetTypeAppends(e: Element, t: string)
    requires RankedUpTo(e, 8)
    ensures SetAttr(e, "type", t) == e.(attrs := e.attrs + [("type", t)])
  {
    assert AdRank("type") == 9;
    LookupNames(e.attrs, "type");
    PutAbsent(e.attrs, "type", t);
  }

  lemma SetRangeAppends(e: Element, ad: AttributeDefinition)
    requires RankedUpTo(e, 4)
    ensures SetChecked(SetChecked(e, "min", ad.min), "max", ad.max)
      == e.(attrs := e.attrs + Optional("min", Checked(ad.min)) + Optional("max", Checked(ad.max)))
    ensures RankedUpTo(SetChecked(SetChecked(e, "min", ad.min), "max", ad.max), 6)
  {
    StepChecked(e, 4, "min", ad.min);
    StepChecked(SetChecked(e, "min", ad.min), 5, "max", ad.max);
  }

  lemma SetCountAppends(e: Element, ad: AttributeDefinition)
    requires RankedUpTo(e, 6)
    ensures var e6 := if ad.required then e else SetChecked(e, "required", "false");
      SetChecked(e6, "cardinality", CardinalityText(ad.cardinality))
      == e.(attrs := e.attrs + Optional("required", RequiredValue(ad))
                             + Optional("cardinality", Checked(CardinalityText(ad.cardinality))))
    ensures var e6 := if ad.required then e else SetChecked(e, "required", "false");
      RankedUpTo(SetChecked(e6, "cardinality", CardinalityText(ad.cardinality)), 8)
  {
    StepChecked(e, 6, "required", "false");
    var e6 := if ad.required then e else SetChecked(e, "required", "false");
    assert e6.attrs == e.attrs + Optional("required", RequiredValue(ad)) && RankedUpTo(e6, 7);
    StepChecked(e6, 7, "cardinality", CardinalityText(ad.cardinality));
  }

  /** The element holds only attributes among the first `k` the loop body sets. */
  predicate RankedUpTo(e: Element, k: nat) {
    forall x :: x in Names(e.attrs) ==> 1 <= AdRank(x) <= k
  }

  /** The position of an attribute in the order the loop body sets them, 0
      for a name it never sets. */
  function AdRank(n: string): nat
  {
    if n == "id" then 1
    else if n == "name" then 2
    else if n == "description" then 3
    else if n == "default" then 4
    else if n == "min" then 5
    else if n == "max" then 6
    else if n == "required" then 7
    else if n == "cardinality" then 8
    else if n == "type" then 9
    else 0
  }

  /** One checked set of the `k+1`-th attribute on an element that holds
      only attributes among the first `k`. */
  lemma StepChecked(e: Element, k: nat, name: string, value: string)
    requires RankedUpTo(e, k)
    requires AdRank(name) == k + 1
    ensures SetChecked(e, name, value) == e.(attrs := e.attrs + Optional(name, Checked(value)))
    ensures RankedUpTo(SetChecked(e, name, value), k + 1)
  {
    SetCheckedAbsent(e, name, value);
    NamesAppend(e.attrs, Optional(name, Checked(value)));
  }

  /** Reading an attribute of the element: the value of the one entry by that
      name, since the names in `AdAttrs` differ. */
  lemma AdLookup(meth: MethodData, id: string, n: string)
    ensures GetAttr(AdElement(meth, id), n) ==
      if n == "id" then Some(id)
      else if n == "name" then Checked(meth.ad.name)
      else if n == "description" then Checked(meth.ad.description)
      else if n == "default" then Checked(DefaultText(meth.ad.defaultValue))
      else if n == "min" then Checked(meth.ad.min)
      else if n == "max" then Checked(meth.ad.max)
      else if n == "required" then RequiredValue(meth.ad)
      else if n == "cardinality" then Checked(CardinalityText(meth.ad.cardinality))
      else if n == "type" then Some(TypeName(EffectiveType(meth.ad, meth.returnType)))
      else None
  {
    var ad := meth.ad;
    var a0 := [("id", id)];
    var a1 := a0 + Optional("name", Checked(ad.name));
    var a2 := a1 + Optional("description", Checked(ad.description));
    var a3 := a2 + Optional("default", Checked(DefaultText(ad.defaultValue)));
    var a4 := a3 + Optional("min", Checked(ad.min));
    var a5 := a4 + Optional("max", Checked(ad.max));
    var a6 := a5 + Optional("required", RequiredValue(ad));
    var a7 := a6 + Optional("cardinality", Checked(CardinalityText(ad.cardinality)));
    assert AdAttrs(meth, id) == a7 + [("type", TypeName(EffectiveType(ad, meth.returnType)))];
    LookupAppend(a0, Optional("name", Checked(ad.name)), n);
    LookupAppend(a1, Optional("description", Checked(ad.description)), n);
    LookupAppend(a2, Optional("default", Checked(DefaultText(ad.defaultValue))), n);
    LookupAppend(a3, Optional("min", Checked(ad.min)), n);
    LookupAppend(a4, Optional("max", Checked(ad.max)), n);
    LookupAppend(a5, Optional("required", RequiredValue(ad)), n);
    LookupAppend(a6, Optional("cardinality", Checked(CardinalityText(ad.cardinality))), n);
    LookupAppend(a7, [("type", TypeName(EffectiveType(ad, meth.returnType)))], n);
  }

  /** `id` is always set; `name`, `description` and `default` only when not
      blank. */
  lemma AdElementLabels(meth: MethodData, id: string)
    ensures GetAttr(AdElement(meth, id), "id") == Some(id)
    ensures GetAttr(AdElement(meth, id), "name") == Checked(meth.ad.name)
    ensures GetAttr(AdElement(meth, id), "description") == Checked(meth.ad.description)
    ensures GetAttr(AdElement(meth, id), "default") == Checked(DefaultText(meth.ad.defaultValue))
  {
    AdAttributeNamesDistinct();
    AdLookup(meth, id, "id");
    AdLookup(meth, id, "name");
    AdLookup(meth, id, "description");
    AdLookup(meth, id, "default");
  }

  /** `min` and `max` only when not blank, `required="false"` only for an
      optional attribute, `cardinality` only when not zero, `type` always. */
  lemma AdElementLimits(meth: MethodData, id: string)
    ensures GetAttr(AdElement(meth, id), "min") == Checked(meth.ad.min)
    ensures GetAttr(AdElement(meth, id), "max") == Checked(meth.ad.max)
    ensures GetAttr(AdElement(meth, id), "required") == (if meth.ad.required then None else Some("false"))
    ensures GetAttr(AdElement(meth, id), "cardinality") ==
      (if meth.ad.cardinality == 0 then None else Some(CardinalityText(meth.ad.cardinality)))
    ensures GetAttr(AdElement(meth, id), "type") == Some(TypeName(EffectiveType(meth.ad, meth.returnType)))
  {
    AdAttributeNamesDistinct();
    CardinalityNotBlank(meth.ad.cardinality);
    AdLookup(meth, id, "min");
    AdLookup(meth, id, "max");
    AdLookup(meth, id, "required");
    AdLookup(meth, id, "cardinality");
    AdLookup(meth, id, "type");
  }

  /** No other attribute is ever written. */
  lemma AdElementNothingElse(meth: MethodData, id: string, n: string)
    requires !AdAttribute(n)
    ensures GetAttr(AdElement(meth, id), n) == None
  {
    AdLookup(meth, id, n);
  }

  /** The `AD` elements of a list of methods, each under its id. */
  function AdElements(m: Manager): (r: seq<Element>)
    ensures |r| == |m.methods|
  {
    seq(|m.methods|, i requires 0 <= i < |m.methods| => AdElement(m.methods[i], AdId(m, m.methods[i])))
  }

  /** `processAttributeDefinitions`: appends one `AD` element per method, in
      declaration order, to `parent`, and records each element's id in its
      method. Nothing else about the manager changes. */
  function ProcessAttributeDefinitions(m: Manager, parent: Element): (r: (Element, Manager))
    ensures r.0.tag == parent.tag && r.0.ns == parent.ns && r.0.attrs == parent.attrs
    ensures |r.0.children| == |parent.children| + |m.methods|
    ensures r.0.children[..|parent.children|] == parent.children
    ensures r.1.className == m.className && r.1.prefix == m.prefix && |r.1.methods| == |m.methods|
    ensures forall i :: 0 <= i < |m.methods| ==>
      && r.1.methods[i] == m.methods[i].(adId := AdId(m, m.methods[i]))
      && r.0.children[|parent.children| + i] == AdElement(m.methods[i], r.1.methods[i].adId)
  {
    var ms := seq(|m.methods|, i requires 0 <= i < |m.methods| => m.methods[i].(adId := AdId(m, m.methods[i])));
    var p := parent.(children := parent.children + AdElements(m));
    assert forall i :: 0 <= i < |m.methods| ==> p.children[|parent.children| + i] == AdElements(m)[i];
    (p, m.(methods := ms))
  }

  /** The `AD` pass gives each method the id of its element, and the
      element's `Option` children are the method's options. */
  lemma AdIdsRecorded(m: Manager, parent: Element, i: nat)
    requires i < |m.methods|
    ensures
      var (p, m') := ProcessAttributeDefinitions(m, parent);
      var ad := p.children[|parent.children| + i];
      && ad.tag == "AD"
      && GetAttr(ad, "id") == Some(m'.methods[i].adId)
      && m'.methods[i].adId == AdId(m, m.methods[i])
      && ad.children == OptionElements(m.methods[i].ad.options)
  {
  }

  /** The pass is the only thing that assigns ids: running it again on its own
      result changes nothing in the manager. */
  lemma AdPassIdempotent(m: Manager, parent: Element, parent': Element)
    ensures ProcessAttributeDefinitions(ProcessAttributeDefinitions(m, parent).1, parent').1
         == ProcessAttributeDefinitions(m, parent).1
  {
    var m1 := ProcessAttributeDefinitions(m, parent).1;
    var m2 := ProcessAttributeDefinitions(m1, parent').1;
    assert IsSingleElement(m1) == IsSingleElement(m) by {
      if |m.methods| == 1 { assert m1.methods[0].name == m.methods[0].name; }
    }
    assert forall i :: 0 <= i < |m1.methods| ==> AdId(m1, m1.methods[i]) == AdId(m, m.methods[i]);
    assert m2.methods == m1.methods;
  }

  // ===========================================================================
  // Generated source

  /** `toSimpleName`: `String` for `java.lang.String`, `String[]` for a name
      ending in `String[]`, the printed name otherwise. */
  function SimpleName(t: TypeRef): (r: string)
    ensures t.isString ==> r == "String"
    ensures !t.isString && EndsWith(t.name, "String[]") ==> r == "String[]"
    ensures !t.isString && !EndsWith(t.name, "String[]") ==> r == t.name
  {
    if t.isString then "String"
    else if EndsWith(t.name, "String[]") then "String[]"
    else t.name
  }

  /** What `getFieldDefs` puts after a `String` field's name. */
  function Initializer(t: TypeRef): string
  {
    if t.isString then " = \"\"" else ""
  }

  /** One line of `getFieldDefs`: a private field of the method's simple type,
      named by `toFieldName` of the method name, initialised to `""` exactly
      when it is a `String`. */
  function FieldLine(meth: MethodData): (r: Result<string>)
    ensures r.Ok? <==> ValidFieldId(meth.name)
    ensures r.Ok? ==> StartsWith(r.value, Indent1 + "private " + SimpleName(meth.returnType) + " ")
    ensures r.Ok? ==> EndsWith(r.value, " " + ToFieldName(meth.name).value + Initializer(meth.returnType) + ";")
  {
    var field :- ToFieldName(meth.name);
    var typed := Indent1 + "private " + SimpleName(meth.returnType);
    DeclarationShape(typed, field, Initializer(meth.returnType));
    Ok(typed + " " + field + Initializer(meth.returnType) + ";")
  }

  /** A declaration `typed name init;` starts with the type, ends with the
      name and what follows it, and holds the name between the two. */
  lemma DeclarationShape(typed: string, field: string, init: string)
    ensures var r := typed + " " + field + init + ";";
      && StartsWith(r, typed + " ")
      && EndsWith(r, " " + field + init + ";")
      && |typed + " "| + |init + ";"| <= |r|
      && r[|typed + " "|..|r| - |init + ";"|] == field
  {
    var r := typed + " " + field + init + ";";
    var head, tail := typed + " ", init + ";";
    assert r[..|head|] == head;
    assert r[|head|..|r| - |tail|] == field;
    var decl := " " + field + init + ";";
    assert r[|r| - |decl|..] == decl;
  }

  /** The `getOrDefault` call that reads the value stored under `key`. */
  function KeyLookup(key: string): string
  {
    "configuration.getOrDefault(\"" + key + "\", null)"
  }

  /** The left-hand side and cast of an activate line. */
  function Assignment(field: string, t: TypeRef): string
  {
    Indent3 + "this." + field + " = (" + SimpleName(t) + ") "
  }

  /** One line of `getActivatePart`: the field named by `toFieldName` of the
      method name is assigned the value stored under the method's id, cast to
      the method's simple type. */
  function ActivateLine(meth: MethodData): (r: Result<string>)
    ensures r.Ok? <==> ValidFieldId(meth.name)
    ensures r.Ok? ==> StartsWith(r.value, Indent3 + "this." + ToFieldName(meth.name).value + " = (" + SimpleName(meth.returnType) + ") ")
    ensures r.Ok? ==> EndsWith(r.value, KeyLookup(meth.adId) + ";")
  {
    var field :- ToFieldName(meth.name);
    var target := Assignment(field, meth.returnType);
    Framed(target, KeyLookup(meth.adId), ";");
    Ok(target + KeyLookup(meth.adId) + ";")
  }

  /** The name of the getter for a field: `get` and the field name with its
      first letter in upper case. */
  function GetterName(field: string): (r: string)
    requires |field| > 0
    ensures |r| == |field| + 3
  {
    "get" + [ToUpper(field[0])] + field[1..]
  }

  /** One block of `createGetters`: a public getter of the method's simple
      type, named after the field `toFieldName` gives, that returns that field. */
  function GetterBlock(meth: MethodData): (r: Result<string>)
    ensures r.Ok? <==> ValidFieldId(meth.name)
    ensures r.Ok? ==> Contains(r.value, "public " + SimpleName(meth.returnType) + " " + GetterName(ToFieldName(meth.name).value) + "() {")
    ensures r.Ok? ==> Contains(r.value, "return " + ToFieldName(meth.name).value + ";")
  {
    var field :- ToFieldName(meth.name);
    var signature := "public " + SimpleName(meth.returnType) + " " + GetterName(field) + "() {";
    var body := "return " + field + ";";
    var open, mid, close := "\r\n" + Indent1, "\r\n" + Indent1 + Indent1, "\r\n" + Indent1 + "}";
    GetterPieces(open, signature, mid, body, close);
    Ok(open + signature + (mid + body + close))
  }

  /** The signature and the body both occur in a getter's text. */
  lemma GetterPieces(open: string, signature: string, mid: string, body: string, close: string)
    ensures Contains(open + signature + (mid + body + close), signature)
    ensures Contains(open + signature + (mid + body + close), body)
  {
    ContainsMiddle(open, signature, mid + body + close);
    ContainsMiddle(mid, body, close);
    ContainsPrepend(open + signature, mid + body + close, body);
    assert open + signature + (mid + body + close) == (open + signature) + (mid + body + close);
  }

  /** `getFieldDefs`: the field lines joined by line feeds. */
  function FieldDefs(m: Manager): (r: Result<string>)
    ensures r.Ok? <==> AllValid(m)
  {
    var rs := FieldResults(m);
    assert forall i :: 0 <= i < |rs| ==> (rs[i].Ok? <==> ValidFieldId(m.methods[i].name));
    var lines :- AllOk(rs);
    Ok(Join(lines, "\n"))
  }

  /** `getActivatePart`: the assignment lines joined by line feeds. */
  function ActivatePart(m: Manager): (r: Result<string>)
    ensures r.Ok? <==> AllValid(m)
  {
    var rs := ActivateResults(m);
    assert forall i :: 0 <= i < |rs| ==> (rs[i].Ok? <==> ValidFieldId(m.methods[i].name));
    var lines :- AllOk(rs);
    Ok(Join(lines, "\n"))
  }

  /** `createGetters`: the getter blocks joined by line feeds. */
  function Getters(m: Manager): (r: Result<string>)
    ensures r.Ok? <==> AllValid(m)
  {
    var rs := GetterResults(m);
    assert forall i :: 0 <= i < |rs| ==> (rs[i].Ok? <==> ValidFieldId(m.methods[i].name));
    var blocks :- AllOk(rs);
    Ok(Join(blocks, "\n"))
  }

  /** The getter block of every method, in order. */
  function GetterResults(m: Manager): (rs: seq<Result<string>>)
    ensures |rs| == |m.methods| && forall i :: 0 <= i < |rs| ==> rs[i] == GetterBlock(m.methods[i])
  {
    seq(|m.methods|, i requires 0 <= i < |m.methods| => GetterBlock(m.methods[i]))
  }

  /** The field line of every method, in order. */
  function FieldResults(m: Manager): (rs: seq<Result<string>>)
    ensures |rs| == |m.methods| && forall i :: 0 <= i < |rs| ==> rs[i] == FieldLine(m.methods[i])
  {
    seq(|m.methods|, i requires 0 <= i < |m.methods| => FieldLine(m.methods[i]))
  }

  /** The activate line of every method, in order. */
  function ActivateResults(m: Manager): (rs: seq<Result<string>>)
    ensures |rs| == |m.methods| && forall i :: 0 <= i < |rs| ==> rs[i] == ActivateLine(m.methods[i])
  {
    seq(|m.methods|, i requires 0 <= i < |m.methods| => ActivateLine(m.methods[i]))
  }

  /** Every method name is one `toFieldName` accepts. */
  predicate AllValid(m: Manager) {
    forall i :: 0 <= i < |m.methods| ==> ValidFieldId(m.methods[i].name)
  }

  /** Neither the field declarations nor the getters depend on the ids, so
      they are the same before and after the `AD` pass. */
  lemma FieldsAndGettersIgnoreIds(m: Manager, parent: Element)
    ensures FieldDefs(ProcessAttributeDefinitions(m, parent).1) == FieldDefs(m)
    ensures Getters(ProcessAttributeDefinitions(m, parent).1) == Getters(m)
  {
    FieldsIgnoreIds(m, ProcessAttributeDefinitions(m, parent).1);
    GettersIgnoreIds(m, ProcessAttributeDefinitions(m, parent).1);
  }

  lemma FieldsIgnoreIds(m: Manager, m': Manager)
    requires |m'.methods| == |m.methods|
    requires forall i :: 0 <= i < |m.methods| ==> m'.methods[i] == m.methods[i].(adId := m'.methods[i].adId)
    ensures FieldDefs(m') == FieldDefs(m)
  {
    assert FieldResults(m') == FieldResults(m);
  }

  lemma GettersIgnoreIds(m: Manager, m': Manager)
    requires |m'.methods| == |m.methods|
    requires forall i :: 0 <= i < |m.methods| ==> m'.methods[i] == m.methods[i].(adId := m'.methods[i].adId)
    ensures Getters(m') == Getters(m)
  {
    assert GetterResults(m') == GetterResults(m);
  }

  /** Before the `AD` pass every activate line reads the key `""`; after it,
      the line for method i reads the id of the i-th `AD` element. */
  lemma ActivateReadsAdIds(m: Manager, parent: Element, i: nat)
    requires i < |m.methods| && ValidFieldId(m.methods[i].name)
    ensures m.methods[i].adId == "" ==> Contains(ActivateLine(m.methods[i]).value, KeyLookup(""))
    ensures
      var (p, m') := ProcessAttributeDefinitions(m, parent);
      var ad := p.children[|parent.children| + i];
      GetAttr(ad, "id").Some? && Contains(ActivateLine(m'.methods[i]).value, KeyLookup(GetAttr(ad, "id").value))
  {
    var (p, m') := ProcessAttributeDefinitions(m, parent);
    LineHasKey(m.methods[i]);
    LineHasKey(m'.methods[i]);
  }

  /** Each method's line occurs in the activate part. */
  lemma ActivatePartHasLine(m: Manager, i: nat)
    requires AllValid(m) && i < |m.methods|
    ensures Contains(ActivatePart(m).value, ActivateLine(m.methods[i]).value)
  {
    var rs := ActivateResults(m);
    var lines := AllOk(rs).value;
    JoinContains(lines, "\n", i);
  }

  lemma LineHasKey(meth: MethodData)
    requires ValidFieldId(meth.name)
    ensures Contains(ActivateLine(meth).value, KeyLookup(meth.adId))
  {
    var field := ToFieldName(meth.name).value;
    ContainsMiddle(Assignment(field, meth.returnType), KeyLookup(meth.adId), ";");
  }

  /** Each method's getter occurs in the getter part. */
  lemma GettersHasBlock(m: Manager, i: nat)
    requires AllValid(m) && i < |m.methods|
    ensures Contains(Getters(m).value, GetterBlock(m.methods[i]).value)
  {
    var blocks := AllOk(GetterResults(m)).value;
    JoinContains(blocks, "\n", i);
  }

  /** The getters follow the order of the methods: the getter of each method
      is followed, after a line feed, by the getter of the next one. */
  lemma GettersInOrder(m: Manager, i: nat)
    requires AllValid(m) && i + 1 < |m.methods|
    ensures Contains(Getters(m).value, GetterBlock(m.methods[i]).value + "\n" + GetterBlock(m.methods[i + 1]).value)
  {
    var rs := GetterResults(m);
    assert Getters(m).value == Join(AllOk(rs).value, "\n");
    JoinedNeighbours(rs, i);
  }

  /** Neighbouring results sit next to each other in the joined text. */
  lemma JoinedNeighbours(rs: seq<Result<string>>, i: nat)
    requires AllOk(rs).Ok? && i + 1 < |rs|
    ensures Contains(Join(AllOk(rs).value, "\n"), rs[i].value + "\n" + rs[i + 1].value)
  {
    JoinAdjacent(AllOk(rs).value, "\n", i);
  }

  /** The name a field line declares: what lies between the type and the
      initializer. */
  function DeclaredName(line: string, t: TypeRef): string
  {
    var head := |Indent1 + "private " + SimpleName(t) + " "|;
    var tail := |Initializer(t) + ";"|;
    if head + tail <= |line| then line[head..|line| - tail] else ""
  }

  /** Reading the declared name back out of a method's field line gives the
      field its activate line assigns and its getter returns. */
  lemma GetterReturnsDeclaredField(meth: MethodData)
    requires ValidFieldId(meth.name)
    ensures var f := DeclaredName(FieldLine(meth).value, meth.returnType);
      && f == ToFieldName(meth.name).value
      && StartsWith(ActivateLine(meth).value, Indent3 + "this." + f + " = (" + SimpleName(meth.returnType) + ") ")
      && Contains(GetterBlock(meth).value, "return " + f + ";")
  {
    FieldLineDeclares(meth);
  }

  lemma FieldLineDeclares(meth: MethodData)
    requires ValidFieldId(meth.name)
    ensures DeclaredName(FieldLine(meth).value, meth.returnType) == ToFieldName(meth.name).value
  {
    DeclarationShape(Indent1 + "private " + SimpleName(meth.returnType), ToFieldName(meth.name).value, Initializer(meth.returnType));
  }

  /** The getter's name gives the field name back: drop `get` and lower-case
      the first letter. */
  lemma GetterNameRoundTrip(name: string)
    requires ValidFieldId(name)
    ensures
      var field := ToFieldName(name).value;
      var g := GetterName(field);
      StartsWith(g, "get") && [ToLower(g[3])] + g[4..] == field
  {
    GetterNameInverse(ToFieldName(name).value);
  }

  lemma GetterNameInverse(field: string)
    requires |field| > 0 && !IsUpper(field[0])
    ensures var g := GetterName(field);
      StartsWith(g, "get") && [ToLower(g[3])] + g[4..] == field
  {
    var g := GetterName(field);
    PrefixStartsWith("get", [ToUpper(field[0])] + field[1..]);
    assert g[3] == ToUpper(field[0]) && g[4..] == field[1..];
    LowerOfUpper(field[0]);
    assert [field[0]] + field[1..] == field;
  }

  /** With names and types free of line feeds there is one field line per
      method, in order: splitting at the line feeds gives them back. */
  lemma FieldDefsOneLinePerMethod(m: Manager)
    requires |m.methods| >= 1 && AllValid(m)
    requires forall i :: 0 <= i < |m.methods| ==> '\n' !in m.methods[i].name && '\n' !in m.methods[i].returnType.name
    ensures var lines := Split(FieldDefs(m).value, '\n');
      |lines| == |m.methods| && forall i :: 0 <= i < |m.methods| ==> lines[i] == FieldLine(m.methods[i]).value
  {
    var rs := FieldResults(m);
    var lines := AllOk(rs).value;
    forall i | 0 <= i < |lines|
      ensures '\n' !in lines[i]
    {
      FieldLineSingle(m.methods[i]);
    }
    SplitJoin(lines, '\n');
  }

  lemma FieldLineSingle(meth: MethodData)
    requires ValidFieldId(meth.name) && '\n' !in meth.name && '\n' !in meth.returnType.name
    ensures '\n' !in FieldLine(meth).value
  {
    var field := ToFieldName(meth.name).value;
    NoNewlineInFieldName(meth.name);
    SimpleNameChars(meth.returnType);
    var init := Initializer(meth.returnType);
    FieldTextSingle();
    assert '\n' !in init;
    var typed := Indent1 + "private " + SimpleName(meth.returnType);
    assert '\n' !in typed;
    assert FieldLine(meth).value == typed + " " + field + init + ";";
  }

  /** The same holds for the activate lines once the ids are free of line feeds. */
  lemma ActivatePartOneLinePerMethod(m: Manager)
    requires |m.methods| >= 1 && AllValid(m)
    requires forall i :: 0 <= i < |m.methods| ==>
      '\n' !in m.methods[i].name && '\n' !in m.methods[i].returnType.name && '\n' !in m.methods[i].adId
    ensures var lines := Split(ActivatePart(m).value, '\n');
      |lines| == |m.methods| && forall i :: 0 <= i < |m.methods| ==> lines[i] == ActivateLine(m.methods[i]).value
  {
    var rs := ActivateResults(m);
    var lines := AllOk(rs).value;
    forall i | 0 <= i < |lines|
      ensures '\n' !in lines[i]
    {
      ActivateLineSingle(m.methods[i]);
    }
    SplitJoin(lines, '\n');
  }

  lemma ActivateLineSingle(meth: MethodData)
    requires ValidFieldId(meth.name) && '\n' !in meth.name && '\n' !in meth.returnType.name && '\n' !in meth.adId
    ensures '\n' !in ActivateLine(meth).value
  {
    var field := ToFieldName(meth.name).value;
    NoNewlineInFieldName(meth.name);
    SimpleNameChars(meth.returnType);
    ActivateTextSingle();
    var key := KeyLookup(meth.adId);
    assert '\n' !in key;
    var target := Assignment(field, meth.returnType);
    assert '\n' !in target;
    assert ActivateLine(meth).value == target + key + ";";
  }

  /** The fixed text of a field line holds no line feed. */
  lemma FieldTextSingle()
    ensures '\n' !in Indent1 + "private " && '\n' !in " = \"\"" && '\n' !in ";" && '\n' !in " "
  {
  }

  /** The fixed text of an activate line holds no line feed. */
  lemma ActivateTextSingle()
    ensures '\n' !in "configuration.getOrDefault(\""
    ensures '\n' !in "\", null)"
    ensures '\n' !in Indent3 + "this." && '\n' !in " = (" && '\n' !in ") " && '\n' !in ";"
  {
  }

  /** A simple name only holds characters of the printed type name, `String`
      or `[]`. */
  lemma SimpleNameChars(t: TypeRef)
    ensures '\n' !in t.name ==> '\n' !in SimpleName(t)
  {
    if !t.isString && EndsWith(t.name, "String[]") {
      assert '\n' !in "String[]";
    }
  }

  /** A field name only holds characters of the id, some case-changed. */
  lemma NoNewlineInFieldName(id: string)
    requires ValidFieldId(id) && '\n' !in id
    ensures '\n' !in ToFieldName(id).value
  {
    var u := Remove(id, Low);
    RemoveSubset(id, Low);
    assert '\n' !in u by {
      forall k | 0 <= k < |u|
        ensures u[k] != '\n'
      {
        assert u[k] in id;
      }
    }
    SameLowerNoNewline(ToFieldName(id).value, u);
  }

  /** Texts equal up to case hold line feeds at the same places. */
  lemma SameLowerNoNewline(r: string, u: string)
    requires LowerAll(r) == LowerAll(u) && '\n' !in u
    ensures '\n' !in r
  {
    forall k | 0 <= k < |r|
      ensures r[k] != '\n'
    {
      assert u[k] in u;
      assert LowerAll(r)[k] == LowerAll(u)[k];
    }
  }

  lemma {:induction false} RemoveSubset(s: string, c: char)
    ensures forall k :: 0 <= k < |Remove(s, c)| ==> Remove(s, c)[k] in s
    decreases |s|
  {
    if |s| > 0 {
      RemoveSubset(s[1..], c);
    }
  }
}
