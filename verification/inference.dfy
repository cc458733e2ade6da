/** Inferring a data type from a Python value: the literal-type table
    `_type_mappings`, the typed-array table derived from the C integer sizes, and
    `_infer_type` itself. */
module Inference {
  import opened Results
  import opened DataTypes

  // ---------------------------------------------------------------------------
  // Python values

  /** The Python types that have a literal data type (the keys of `_type_mappings`). */
  datatype PyType =
    | TNone
    | TBool
    | TInt
    | TFloat
    | TStr
    | TByteArray
    | TDecimal
    | TDate
    | TDateTime
    | TTime
    | TBytes

  /** A Python value as inference sees it. Scalars carry their payload only so that
      lemmas can say the payload does not matter; a named tuple (a `Row`, or a
      `collections.namedtuple`) is a tuple with field names; a value with a
      `__UDT__` attribute carries the data type it declares; any other object is
      known by its type name only. */
  datatype PyValue =
    | PyNone
    | PyBool(b: bool)
    | PyInt(i: int)
    | PyFloat(x: real)
    | PyStr(s: string)
    | PyByteArray(data: seq<int>)
    | PyBytes(data: seq<int>)
    | PyDecimal(unscaled: int, exponent: int)
    | PyDate(days: int)
    | PyDateTime(micros: int)
    | PyTime(micros: int)
    | PyDict(entries: seq<(PyValue, PyValue)>)
    | PyList(items: seq<PyValue>)
    | PyTuple(items: seq<PyValue>)
    | PyNamedTuple(fields: seq<string>, items: seq<PyValue>)
    | PyArray(typecode: char, size: nat)
    | PyUdt(typeName: string, declared: DataType)
    | PyOther(typeName: string)

  /** `type(v)` when it is a key of the literal-type table. */
  function ScalarType(v: PyValue): (r: Option<PyType>)
    ensures r.Some? <==> (v.PyNone? || v.PyBool? || v.PyInt? || v.PyFloat? || v.PyStr? || v.PyByteArray?
                          || v.PyBytes? || v.PyDecimal? || v.PyDate? || v.PyDateTime? || v.PyTime?)
  {
    match v
    case PyNone => Some(TNone)
    case PyBool(_) => Some(TBool)
    case PyInt(_) => Some(TInt)
    case PyFloat(_) => Some(TFloat)
    case PyStr(_) => Some(TStr)
    case PyByteArray(_) => Some(TByteArray)
    case PyBytes(_) => Some(TBytes)
    case PyDecimal(_, _) => Some(TDecimal)
    case PyDate(_) => Some(TDate)
    case PyDateTime(_) => Some(TDateTime)
    case PyTime(_) => Some(TTime)
    case _ => None
  }

  /** `_type_mappings`: the data type class of each literal Python type. */
  function TypeMapping(p: PyType): (c: TypeClass)
    ensures c.StructType? == false && c.ArrayType? == false && c.MapType? == false
  {
    match p
    case TNone => NullType
    case TBool => BooleanType
    case TInt => LongType
    case TFloat => FloatType
    case TStr => StringType
    case TByteArray => BinaryType
    case TDecimal => DecimalType
    case TDate => DateType
    case TDateTime => TimestampType
    case TTime => TimeType
    case TBytes => BinaryType
  }

  /** Only the decimal class needs constructor arguments; every other class the
      literal table yields is built by its zero-argument constructor. */
  lemma TypeMappingParameterless(p: PyType)
    ensures Parameterless(TypeMapping(p)) <==> p != TDecimal
  {
  }

  /** Python `int` is inferred as the 64-bit Long, and both byte-string types as
      Binary: the table is not injective. */
  lemma TypeMappingCollisions()
    ensures TypeMapping(TByteArray) == TypeMapping(TBytes) == BinaryType
    ensures forall p :: TypeMapping(p) == BinaryType ==> p == TByteArray || p == TBytes
    ensures forall p :: TypeMapping(p) == LongType <==> p == TInt
  {
  }

  // ---------------------------------------------------------------------------
  // Typed arrays

  /** `sizeof` in bytes of the C integer types behind the array type codes; the
      signed and unsigned variant of a type have the same size, and `char` is one
      byte. The values are the platform's, so they are a parameter. */
  datatype CSizes = CSizes(shortBytes: nat, intBytes: nat, longBytes: nat, longLongBytes: nat)

  /** The LP64 data model of 64-bit Linux and macOS. */
  const LP64 := CSizes(2, 4, 8, 8)

  /** The LLP64 data model of 64-bit Windows, where `long` has 4 bytes. */
  const LLP64 := CSizes(2, 4, 4, 8)

  predicate IsIntegral(c: TypeClass) {
    c == ByteType || c == ShortType || c == IntegerType || c == LongType
  }

  /** Bits of the signed integer an integral class stores. */
  function Width(c: TypeClass): nat
    requires IsIntegral(c)
  {
    match c
    case ByteType => 8
    case ShortType => 16
    case IntegerType => 32
    case LongType => 64
  }

  /** `_int_size_to_type`: the narrowest integral class of at least `size` bits;
      none for more than 64 bits (the function falls off its end). */
  function IntSizeToType(size: int): (r: Option<TypeClass>)
    ensures r.Some? <==> size <= 64
    ensures r.Some? ==> IsIntegral(r.value) && size <= Width(r.value)
    ensures r.Some? ==> forall c :: IsIntegral(c) && size <= Width(c) ==> Width(r.value) <= Width(c)
  {
    if size <= 8 then Some(ByteType)
    else if size <= 16 then Some(ShortType)
    else if size <= 32 then Some(IntegerType)
    else if size <= 64 then Some(LongType)
    else None
  }

  /** The type codes of the signed C integer types. */
  predicate IsSignedCode(code: char) {
    code == 'b' || code == 'h' || code == 'i' || code == 'l' || code == 'q'
  }

  /** The type codes of the unsigned C integer types. */
  predicate IsUnsignedCode(code: char) {
    code == 'B' || code == 'H' || code == 'I' || code == 'L' || code == 'Q'
  }

  predicate IsIntegerCode(code: char) {
    IsSignedCode(code) || IsUnsignedCode(code)
  }

  /** The bytes of the C integer type behind an integer type code, signed or not. */
  function CodeBytes(code: char, sizes: CSizes): nat
    requires IsIntegerCode(code)
  {
    match code
    case 'b' => 1
    case 'B' => 1
    case 'h' => sizes.shortBytes
    case 'H' => sizes.shortBytes
    case 'i' => sizes.intBytes
    case 'I' => sizes.intBytes
    case 'l' => sizes.longBytes
    case 'L' => sizes.longBytes
    case 'q' => sizes.longLongBytes
    case 'Q' => sizes.longLongBytes
  }


  /** `_array_type_mappings`: floats and doubles by name; integer codes by the
      narrowest class holding the C type, one bit wider for the unsigned codes,
      which no signed class of the same width can hold; the deprecated `u` as a
      string. A code with no entry yields none. */
  function ArrayTypeMapping(code: char, sizes: CSizes): (r: Option<TypeClass>)
    ensures !(IsIntegerCode(code) || code == 'f' || code == 'd' || code == 'u') ==> r.None?
    ensures r.Some? ==> Parameterless(r.value) && r.value != NullType
    ensures code == 'f' ==> r == Some(FloatType)
    ensures code == 'd' ==> r == Some(DoubleType)
    ensures code == 'u' ==> r == Some(StringType)
    ensures IsIntegerCode(code) ==>
              r == IntSizeToType(CodeBytes(code, sizes) * 8 + (if IsUnsignedCode(code) then 1 else 0))
  {
    if code == 'f' then Some(FloatType)
    else if code == 'd' then Some(DoubleType)
    else if code == 'u' then Some(StringType)
    else if IsSignedCode(code) then IntSizeToType(CodeBytes(code, sizes) * 8)
    else if IsUnsignedCode(code) then IntSizeToType(CodeBytes(code, sizes) * 8 + 1)
    else None
  }

  /** No precision is lost: the class an integer code maps to holds every value of
      its C type, signed or unsigned. */
  lemma ArrayMappingHoldsCType(code: char, sizes: CSizes)
    requires IsIntegerCode(code) && ArrayTypeMapping(code, sizes).Some?
    ensures var c := ArrayTypeMapping(code, sizes).value;
            IsIntegral(c) && CodeBytes(code, sizes) * 8 < Width(c) + (if IsUnsignedCode(code) then 0 else 1)
  {
  }

  /** On LP64 every signed integer code has the class of its own width. */
  lemma LP64SignedCodes()
    ensures ArrayTypeMapping('b', LP64) == Some(ByteType) && ArrayTypeMapping('h', LP64) == Some(ShortType)
    ensures ArrayTypeMapping('i', LP64) == Some(IntegerType) && ArrayTypeMapping('l', LP64) == Some(LongType)
    ensures ArrayTypeMapping('q', LP64) == Some(LongType)
  {
  }

  /** On LP64 an unsigned code takes the next wider class, and the unsigned `long`
      and `long long` codes, which need 65 bits, have no data type. */
  lemma LP64UnsignedCodes()
    ensures ArrayTypeMapping('B', LP64) == Some(ShortType) && ArrayTypeMapping('H', LP64) == Some(IntegerType)
    ensures ArrayTypeMapping('I', LP64) == Some(LongType)
    ensures ArrayTypeMapping('L', LP64).None? && ArrayTypeMapping('Q', LP64).None?
  {
  }

  /** On LLP64 the narrower `long` makes the unsigned `long` code representable. */
  lemma LLP64UnsignedLong()
    ensures ArrayTypeMapping('L', LLP64) == Some(LongType) && ArrayTypeMapping('l', LLP64) == Some(IntegerType)
  {
  }

  // ---------------------------------------------------------------------------
  // Inference

  /** The index of the first dictionary entry whose key and value are both not
      None. */
  function FirstComplete(entries: seq<(PyValue, PyValue)>): (r: Option<nat>)
    ensures r.Some? ==> r.value < |entries| && !entries[r.value].0.PyNone? && !entries[r.value].1.PyNone?
    ensures r.Some? ==> forall j :: 0 <= j < r.value ==> entries[j].0.PyNone? || entries[j].1.PyNone?
    ensures r.None? <==> forall j :: 0 <= j < |entries| ==> entries[j].0.PyNone? || entries[j].1.PyNone?
  {
    if |entries| == 0 then None
    else if !entries[0].0.PyNone? && !entries[0].1.PyNone? then Some(0)
    else
      match FirstComplete(entries[1..])
      case None => None
      case Some(i) => Some(i + 1)
  }

  predicate AllNone(items: seq<PyValue>) {
    forall j :: 0 <= j < |items| ==> items[j].PyNone?
  }

  /** `_infer_type`. None is Null; a value with `__UDT__` has the type it declares;
      a literal type has its table class, a decimal always (38, 18); a dict is a
      map of the key and value of its first entry with neither None; a list or
      tuple with some non-None item is an array of its FIRST item's type; a typed
      array is an array of its code's class; anything else is unsupported. */
  function InferType(v: PyValue, sizes: CSizes): (r: Result<DataType, Error>)
    ensures v.PyNone? ==> r == Ok(Null)
    ensures v.PyUdt? ==> r == Ok(v.declared)
    ensures ScalarType(v).Some? ==> r.Ok? && ClassOf(r.value) == TypeMapping(ScalarType(v).value)
    ensures v.PyDecimal? ==> r == Ok(Decimal(38, 18))
    ensures v.PyOther? ==> r == Err(UnsupportedValue(v.typeName))
    ensures v.PyArray? ==> (r.Ok? <==> ArrayTypeMapping(v.typecode, sizes).Some?)
    ensures v.PyArray? && r.Ok? ==> r.value == Array(Unit(ArrayTypeMapping(v.typecode, sizes).value))
    ensures v.PyArray? && r.Err? ==> r.error == UnsupportedArrayCode(v.typecode)
    ensures r.Ok? && (v.PyDict? || v.PyList? || v.PyTuple? || v.PyNamedTuple? || v.PyArray?) ==>
              (if v.PyDict? then r.value.Map? else r.value.Array?)
    decreases v
  {
    match v
    case PyNone => Ok(Null)
    case PyUdt(_, declared) => Ok(declared)
    case PyDict(entries) =>
      var first := FirstComplete(entries);
      if first.None? then Ok(Map(Null, Null))
      else
        assert entries[first.value] in entries;
        var k :- InferType(entries[first.value].0, sizes);
        var x :- InferType(entries[first.value].1, sizes);
        Ok(Map(k, x))
    case PyList(items) => InferSequence(items, sizes)
    case PyTuple(items) => InferSequence(items, sizes)
    case PyNamedTuple(_, items) => InferSequence(items, sizes)
    case PyArray(code, _) =>
      var c := ArrayTypeMapping(code, sizes);
      if c.Some? then Ok(Array(Unit(c.value))) else Err(UnsupportedArrayCode(code))
    case PyOther(name) => Err(UnsupportedValue(name))
    case PyDecimal(_, _) => Ok(Decimal(38, 18))
    case _ => Ok(Unit(TypeMapping(ScalarType(v).value)))
  }

  /** A typed array of integers is inferred without loss: its elements' class holds
      every value of the code's C type on the platform, and an unmapped code is
      rejected with that code. */
  lemma TypedArrayHoldsCType(code: char, n: nat, sizes: CSizes)
    requires IsIntegerCode(code)
    ensures var r := InferType(PyArray(code, n), sizes);
            r.Ok? ==> r.value.Array? && IsIntegral(ClassOf(r.value.element))
                      && CodeBytes(code, sizes) * 8 < Width(ClassOf(r.value.element)) + (if IsUnsignedCode(code) then 0 else 1)
    ensures InferType(PyArray(code, n), sizes).Err? <==> IntSizeToType(CodeBytes(code, sizes) * 8 + (if IsUnsignedCode(code) then 1 else 0)).None?
  {
    if ArrayTypeMapping(code, sizes).Some? {
      ArrayMappingHoldsCType(code, sizes);
    }
  }

  /** The list and tuple branch of `_infer_type`. */
  function InferSequence(items: seq<PyValue>, sizes: CSizes): (r: Result<DataType, Error>)
    ensures AllNone(items) ==> r == Ok(Array(Null))
    ensures r.Ok? ==> r.value.Array?
    decreases items, 0
  {
    if AllNone(items) then Ok(Array(Null))
    else
      assert items[0] in items;
      var e :- InferType(items[0], sizes);
      Ok(Array(e))
  }

  /** A list or tuple with some item other than None has the type of its first
      item, even when that item is None and a later one is not. */
  lemma SequenceUsesFirstItem(items: seq<PyValue>, sizes: CSizes)
    requires !AllNone(items)
    ensures InferSequence(items, sizes).Ok? <==> InferType(items[0], sizes).Ok?
    ensures InferSequence(items, sizes).Ok? ==>
              InferSequence(items, sizes).value == Array(InferType(items[0], sizes).value)
  {
  }

  /** `[None, 5]` is inferred as an array of Null, not of Long. */
  lemma NoneFirstItemExample(sizes: CSizes)
    ensures InferType(PyList([PyNone, PyInt(5)]), sizes) == Ok(Array(Null))
  {
    assert !AllNone([PyNone, PyInt(5)]) by {
      assert [PyNone, PyInt(5)][1] == PyInt(5);
    }
    SequenceUsesFirstItem([PyNone, PyInt(5)], sizes);
  }

  /** A dict is a map of the key and value types of its first entry with neither
      None, the key inferred first; with no such entry it is a map of Null to Null. */
  lemma DictUsesFirstCompleteEntry(entries: seq<(PyValue, PyValue)>, sizes: CSizes)
    ensures FirstComplete(entries).None? ==> InferType(PyDict(entries), sizes) == Ok(Map(Null, Null))
    ensures FirstComplete(entries).Some? ==>
              var (k, x) := entries[FirstComplete(entries).value];
              InferType(PyDict(entries), sizes) ==
                if InferType(k, sizes).Err? then Err(InferType(k, sizes).error)
                else if InferType(x, sizes).Err? then Err(InferType(x, sizes).error)
                else Ok(Map(InferType(k, sizes).value, InferType(x, sizes).value))
  {
  }

  /** A scalar's type depends on its Python type alone, not on its value. */
  lemma ScalarDependsOnTypeOnly(v: PyValue, w: PyValue, sizes: CSizes)
    requires ScalarType(v).Some? && ScalarType(v) == ScalarType(w)
    ensures InferType(v, sizes) == InferType(w, sizes)
  {
  }

  /** The data type contains a struct somewhere. */
  predicate HasStruct(t: DataType) {
    match t
    case Struct(_) => true
    case Array(e) => HasStruct(e)
    case Map(k, x) => HasStruct(k) || HasStruct(x)
    case _ => false
  }

  /** The value contains an object with a `__UDT__` attribute somewhere. */
  predicate HasUdt(v: PyValue) {
    match v
    case PyUdt(_, _) => true
    case PyDict(entries) => exists e :: e in entries && (HasUdt(e.0) || HasUdt(e.1))
    case PyList(items) => exists x :: x in items && HasUdt(x)
    case PyTuple(items) => exists x :: x in items && HasUdt(x)
    case PyNamedTuple(_, items) => exists x :: x in items && HasUdt(x)
    case _ => false
  }

  /** Inference never produces a struct on its own: only a user-defined type can
      declare one. */
  lemma {:induction false} NoStructWithoutUdt(v: PyValue, sizes: CSizes)
    requires !HasUdt(v) && InferType(v, sizes).Ok?
    ensures !HasStruct(InferType(v, sizes).value)
    decreases v
  {
    match v
    case PyDict(entries) =>
      var first := FirstComplete(entries);
      if first.Some? {
        var e := entries[first.value];
        assert e in entries;
        NoStructWithoutUdt(e.0, sizes);
        NoStructWithoutUdt(e.1, sizes);
      }
    case PyList(items) => NoStructInSequence(items, sizes);
    case PyTuple(items) => NoStructInSequence(items, sizes);
    case PyNamedTuple(_, items) => NoStructInSequence(items, sizes);
    case _ =>
  }

  lemma {:induction false} NoStructInSequence(items: seq<PyValue>, sizes: CSizes)
    requires forall x :: x in items ==> !HasUdt(x)
    requires InferSequence(items, sizes).Ok?
    ensures !HasStruct(InferSequence(items, sizes).value)
    decreases items, 1
  {
    if !AllNone(items) {
      assert items[0] in items;
      NoStructWithoutUdt(items[0], sizes);
    }
  }
}
