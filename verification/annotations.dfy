/** What the compiler hands the generator: the OSGi metatype annotations on
    a configuration interface and the elements enclosed in it. Java types
    (`TypeMirror`) are reduced to their printed name and whether they are
    `java.lang.String`. */
module Annotations {
  import opened Results

  /** `org.osgi.service.metatype.annotations.AttributeType`. */
  datatype AttributeType =
    | StringType | LongType | IntegerType | ShortType | CharacterType
    | ByteType | DoubleType | FloatType | BooleanType | PasswordType

  /** `AttributeType.toString`: the type name the metatype XML schema uses. */
  function TypeName(t: AttributeType): (r: string)
    ensures |r| > 0
  {
    match t
    case StringType => "String"
    case LongType => "Long"
    case IntegerType => "Integer"
    case ShortType => "Short"
    case CharacterType => "Character"
    case ByteType => "Byte"
    case DoubleType => "Double"
    case FloatType => "Float"
    case BooleanType => "Boolean"
    case PasswordType => "Password"
  }

  /** Distinct attribute types print as distinct names. */
  lemma TypeNameInjective(s: AttributeType, t: AttributeType)
    requires TypeName(s) == TypeName(t)
    ensures s == t
  {
    match s
    case StringType =>
    case LongType =>
    case IntegerType =>
    case ShortType =>
    case CharacterType =>
    case ByteType =>
    case DoubleType =>
    case FloatType =>
    case BooleanType =>
    case PasswordType =>
  }

  /** A Java `int`. */
  type Int32 = x: int | -0x8000_0000 <= x < 0x8000_0000

  const MinInt32: Int32 := -0x8000_0000

  /** `@Option(label, value)` (`label` is a reserved word here). */
  datatype OptionEntry = OptionEntry(labelText: string, value: string)

  /** `@AttributeDefinition`; every element is present because annotation
      values have defaults and are never null. */
  datatype AttributeDefinition = AttributeDefinition(
    name: string,
    description: string,
    attrType: AttributeType,
    cardinality: Int32,
    min: string,
    max: string,
    required: bool,
    defaultValue: seq<string>,
    options: seq<OptionEntry>)

  /** `@ObjectClassDefinition`. */
  datatype ObjectClassDefinition = ObjectClassDefinition(id: string, name: string, description: string)

  /** A method's return type: its printed name (`int`, `java.lang.String[]`)
      and whether it is the type `java.lang.String` itself. */
  datatype TypeRef = TypeRef(name: string, isString: bool)

  /** An element enclosed in the configuration interface. A field carries the
      printed value of its compile-time constant, absent when it has none; a
      method carries its `@AttributeDefinition` when it has one. */
  datatype Member =
    | FieldMember(name: string, constant: Option<string>)
    | MethodMember(name: string, ad: Option<AttributeDefinition>, returnType: TypeRef)
    | OtherMember(name: string)
}
