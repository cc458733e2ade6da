/** The canonical type model: the closed set of data types, struct fields, the
    Python class every data type value is an instance of, and the error kinds the
    type-mapping layer raises. */
module DataTypes {

  /** A data type. Decimal parameters are naturals, as every producer in the core
      (inference and the type-string decoder) yields non-negative ones. */
  datatype DataType =
    | Null
    | Boolean
    | Byte
    | Short
    | Integer
    | Long
    | Float
    | Double
    | Decimal(precision: nat, scale: nat)
    | String
    | Binary
    | Date
    | Time
    | Timestamp
    | Array(element: DataType)
    | Map(key: DataType, value: DataType)
    | Struct(fields: seq<StructField>)
    | Variant
    | Geography

  datatype StructField = StructField(name: string, dataType: DataType, nullable: bool)

  /** The Python class of a data type value (`type(t)` in the source). Merging
      compares classes, and the type-name table maps names to classes. */
  datatype TypeClass =
    | NullType
    | BooleanType
    | ByteType
    | ShortType
    | IntegerType
    | LongType
    | FloatType
    | DoubleType
    | DecimalType
    | StringType
    | BinaryType
    | DateType
    | TimeType
    | TimestampType
    | ArrayType
    | MapType
    | StructType
    | VariantType
    | GeographyType

  function ClassOf(t: DataType): TypeClass {
    match t
    case Null => NullType
    case Boolean => BooleanType
    case Byte => ByteType
    case Short => ShortType
    case Integer => IntegerType
    case Long => LongType
    case Float => FloatType
    case Double => DoubleType
    case Decimal(_, _) => DecimalType
    case String => StringType
    case Binary => BinaryType
    case Date => DateType
    case Time => TimeType
    case Timestamp => TimestampType
    case Array(_) => ArrayType
    case Map(_, _) => MapType
    case Struct(_) => StructType
    case Variant => VariantType
    case Geography => GeographyType
  }

  /** The class's Python `__name__`. */
  function ClassName(c: TypeClass): (r: string)
    ensures |r| > 4 && r[|r| - 4..] == "Type"
  {
    ClassStem(c) + "Type"
  }

  /** A class's `__name__` without its `Type` suffix. */
  function ClassStem(c: TypeClass): (r: string)
    ensures |r| > 0
  {
    match c
    case NullType => "Null"
    case BooleanType => "Boolean"
    case ByteType => "Byte"
    case ShortType => "Short"
    case IntegerType => "Integer"
    case LongType => "Long"
    case FloatType => "Float"
    case DoubleType => "Double"
    case DecimalType => "Decimal"
    case StringType => "String"
    case BinaryType => "Binary"
    case DateType => "Date"
    case TimeType => "Time"
    case TimestampType => "Timestamp"
    case ArrayType => "Array"
    case MapType => "Map"
    case StructType => "Struct"
    case VariantType => "Variant"
    case GeographyType => "Geography"
  }

  /** Every class of the hierarchy, in declaration order. */
  const AllClasses: seq<TypeClass> := [
    NullType, BooleanType, ByteType, ShortType, IntegerType, LongType, FloatType,
    DoubleType, DecimalType, StringType, BinaryType, DateType, TimeType,
    TimestampType, ArrayType, MapType, StructType, VariantType, GeographyType
  ]

  /** The position of a class in the hierarchy: every class is listed. */
  function ClassIndex(c: TypeClass): (i: nat)
    ensures i < |AllClasses| && AllClasses[i] == c
  {
    match c
    case NullType => 0
    case BooleanType => 1
    case ByteType => 2
    case ShortType => 3
    case IntegerType => 4
    case LongType => 5
    case FloatType => 6
    case DoubleType => 7
    case DecimalType => 8
    case StringType => 9
    case BinaryType => 10
    case DateType => 11
    case TimeType => 12
    case TimestampType => 13
    case ArrayType => 14
    case MapType => 15
    case StructType => 16
    case VariantType => 17
    case GeographyType => 18
  }

  /** Atomic data types: neither a container nor Null. */
  predicate IsAtomic(t: DataType) {
    !(t.Null? || t.Array? || t.Map? || t.Struct?)
  }

  /** Classes whose instances carry no parameters, so the class alone fixes the value. */
  predicate Parameterless(c: TypeClass) {
    !(c.DecimalType? || c.ArrayType? || c.MapType? || c.StructType?)
  }

  /** The instance that the zero-argument constructor of a parameterless class builds. */
  function Unit(c: TypeClass): (t: DataType)
    requires Parameterless(c)
    ensures ClassOf(t) == c
  {
    match c
    case NullType => Null
    case BooleanType => Boolean
    case ByteType => Byte
    case ShortType => Short
    case IntegerType => Integer
    case LongType => Long
    case FloatType => Float
    case DoubleType => Double
    case StringType => String
    case BinaryType => Binary
    case DateType => Date
    case TimeType => Time
    case TimestampType => Timestamp
    case VariantType => Variant
    case GeographyType => Geography
  }

  /** A parameterless class has exactly one instance. */
  lemma UnitIsTheOnlyInstance(t: DataType)
    requires Parameterless(ClassOf(t))
    ensures Unit(ClassOf(t)) == t
  {
  }

  /** What the zero-argument constructors `DecimalType()`, `ArrayType()`,
      `MapType()` and `StructType()` build. Their bodies live in the types module,
      which is not part of this model, so the values are taken as given; all that
      is known is that each is an instance of its own class. */
  datatype Defaults = Defaults(decimalDefault: DataType, arrayDefault: DataType, mapDefault: DataType, structDefault: DataType) {
    predicate Valid() {
      decimalDefault.Decimal? && arrayDefault.Array? && mapDefault.Map? && structDefault.Struct?
    }
  }

  /** `cls()`: the value the zero-argument constructor of class `c` returns. */
  function Nullary(c: TypeClass, d: Defaults): (t: DataType)
    requires d.Valid()
    ensures ClassOf(t) == c
    ensures Parameterless(c) ==> t == Unit(c)
    ensures !Parameterless(c) ==> t in {d.decimalDefault, d.arrayDefault, d.mapDefault, d.structDefault}
  {
    match c
    case DecimalType => d.decimalDefault
    case ArrayType => d.arrayDefault
    case MapType => d.mapDefault
    case StructType => d.structDefault
    case _ => Unit(c)
  }

  /** The failures the core raises; the comment on each names the Python exception. */
  datatype Error =
      /** TypeError: a data type with no warehouse type name. */
    | UnsupportedDataType(cls: TypeClass)
      /** TypeError: a value whose Python type has no data type. */
    | UnsupportedValue(pyType: string)
      /** TypeError: a typed array whose type code has no data type. */
    | UnsupportedArrayCode(code: char)
      /** TypeError: a row field whose value could not be inferred, chained to the cause. */
    | FieldInference(field: string, cause: Error)
      /** TypeError: a row of a shape schema inference does not accept. */
    | UnsupportedRow(pyType: string)
      /** TypeError: two non-null data types of different classes. */
    | MergeConflict(left: TypeClass, right: TypeClass)
      /** TypeError: a type hint with no data type. */
    | InvalidTypeHint
      /** IndexError: a subscripted dict hint with one type argument. */
    | MissingTypeArgument
      /** NameError or SyntaxError: a type-hint string `eval` cannot resolve. */
    | UnresolvedName(text: string)
      /** RecursionError: type-hint strings that keep naming further strings. */
    | RecursionLimit
      /** ValueError: `int()` of a digit group that is empty. */
    | InvalidDigits(text: string)
      /** ValueError: a type string that is neither a decimal nor a table name. */
    | UnknownTypeString(normalized: string)
}
