/** The type-string codec: `convert_to_sf_type` names a data type the way the
    warehouse spells it, and `_type_string_to_type_object` reads a type string
    back, first through the parametrised decimal pattern `_DECIMAL_RE` and then
    through the name table built from the class hierarchy plus warehouse aliases. */
module TypeStrings {
  import opened Results
  import opened DataTypes
  import opened Text

  // ---------------------------------------------------------------------------
  // Data type to warehouse type name

  /** `convert_to_sf_type`: every data type except a struct has a warehouse name. */
  function ToSfType(t: DataType): (r: Result<string, Error>)
    ensures r.Err? <==> t.Struct?
    ensures r.Err? ==> r.error == UnsupportedDataType(StructType)
  {
    match t
    case Decimal(p, s) => Ok("NUMBER(" + NatToString(p) + ", " + NatToString(s) + ")")
    case Integer => Ok("INT")
    case Short => Ok("SMALLINT")
    case Byte => Ok("BYTEINT")
    case Long => Ok("BIGINT")
    case Float => Ok("FLOAT")
    case Double => Ok("DOUBLE")
    case String => Ok("STRING")
    case Null => Ok("STRING")
    case Boolean => Ok("BOOLEAN")
    case Date => Ok("DATE")
    case Time => Ok("TIME")
    case Timestamp => Ok("TIMESTAMP")
    case Binary => Ok("BINARY")
    case Array(_) => Ok("ARRAY")
    case Map(_, _) => Ok("OBJECT")
    case Variant => Ok("VARIANT")
    case Geography => Ok("GEOGRAPHY")
    case Struct(_) => Err(UnsupportedDataType(StructType))
  }

  /** Two atomic types other than Null share a warehouse name only if they are equal:
      the name table is injective away from the Null/String alias. */
  lemma ToSfTypeInjective(a: DataType, b: DataType)
    requires IsAtomic(a) && IsAtomic(b)
    requires ToSfType(a) == ToSfType(b)
    ensures a == b
  {
    if a.Decimal? {
      var ra := ToSfType(a).value;
      assert ra[0] == 'N' && ra[1] == 'U';
      assert b.Decimal?;
      var pa, sa := NatToString(a.precision), NatToString(a.scale);
      var pb, sb := NatToString(b.precision), NatToString(b.scale);
      assert ra == "NUMBER(" + pa + ", " + sa + ")";
      assert ra == "NUMBER(" + pb + ", " + sb + ")";
      DecimalNameSplits(pa, sa, pb, sb);
      NatToStringInjective(a.precision, b.precision);
      NatToStringInjective(a.scale, b.scale);
    }
  }

  /** The digit groups of a rendered decimal name are recovered from it. */
  lemma DecimalNameSplits(pa: string, sa: string, pb: string, sb: string)
    requires AllDigits(pa) && AllDigits(sa) && AllDigits(pb) && AllDigits(sb)
    requires "NUMBER(" + pa + ", " + sa + ")" == "NUMBER(" + pb + ", " + sb + ")"
    ensures pa == pb && sa == sb
  {
    var x := "NUMBER(" + pa + ", " + sa + ")";
    var y := "NUMBER(" + pb + ", " + sb + ")";
    assert x[7..] == pa + (", " + sa + ")");
    assert y[7..] == pb + (", " + sb + ")");
    assert AllIn(pa, Digits) && AllIn(pb, Digits);
    SpanUnique(pa, ", " + sa + ")", Digits);
    SpanUnique(pb, ", " + sb + ")", Digits);
    assert sa == x[9 + |pa|..|x| - 1];
    assert sb == y[9 + |pb|..|y| - 1];
  }

  // ---------------------------------------------------------------------------
  // The name table

  /** `child.__name__[:-4].lower()`: a class's key in the name table. */
  function TableKey(c: TypeClass): (r: string)
    ensures |r| + 4 == |ClassName(c)| && ClassName(c)[|r|..] == "Type"
    ensures r == Lower(ClassStem(c))
  {
    var n := ClassName(c);
    assert n[..|n| - 4] == ClassStem(c);
    Lower(n[..|n| - 4])
  }

  /** The warehouse aliases added after the walk. */
  const AliasEntries: seq<(string, TypeClass)> := [
    ("int", IntegerType), ("smallint", ShortType), ("byteint", ByteType),
    ("bigint", LongType), ("number", DecimalType), ("numeric", DecimalType),
    ("object", MapType), ("array", ArrayType)
  ]

  /** The entries `_get_data_type_string_object_mappings` contributes by walking
      the class hierarchy: every class other than DecimalType (and the private
      `_`-prefixed abstract classes, which have no instances) under its table key. */
  const HierarchyEntries: seq<(string, TypeClass)> := [
    ("null", NullType), ("boolean", BooleanType), ("byte", ByteType),
    ("short", ShortType), ("integer", IntegerType), ("long", LongType),
    ("float", FloatType), ("double", DoubleType), ("string", StringType),
    ("binary", BinaryType), ("date", DateType), ("time", TimeType),
    ("timestamp", TimestampType), ("array", ArrayType), ("map", MapType),
    ("struct", StructType), ("variant", VariantType), ("geography", GeographyType)
  ]

  /** The assignments that fill the name dictionary, in order: the walk, then the
      aliases. */
  const NameTable: seq<(string, TypeClass)> := HierarchyEntries + AliasEntries

  /** The table key of each class, spelled out, two classes at a time. */
  lemma NumericTableKeys()
    ensures TableKey(ByteType) == "byte" && TableKey(ShortType) == "short"
    ensures TableKey(IntegerType) == "integer" && TableKey(LongType) == "long"
    ensures TableKey(FloatType) == "float" && TableKey(DoubleType) == "double"
  {
    ByteShortKeys();
    IntegerLongKeys();
    FloatDoubleKeys();
  }

  lemma ScalarTableKeys()
    ensures TableKey(NullType) == "null" && TableKey(BooleanType) == "boolean"
    ensures TableKey(StringType) == "string" && TableKey(BinaryType) == "binary"
    ensures TableKey(DateType) == "date" && TableKey(TimeType) == "time"
  {
    NullBooleanKeys();
    StringBinaryKeys();
    DateTimeKeys();
  }

  lemma ByteShortKeys()
    ensures TableKey(ByteType) == "byte" && TableKey(ShortType) == "short"
  {
  }

  lemma IntegerLongKeys()
    ensures TableKey(IntegerType) == "integer" && TableKey(LongType) == "long"
  {
  }

  lemma FloatDoubleKeys()
    ensures TableKey(FloatType) == "float" && TableKey(DoubleType) == "double"
  {
  }

  lemma NullBooleanKeys()
    ensures TableKey(NullType) == "null" && TableKey(BooleanType) == "boolean"
  {
  }

  lemma StringBinaryKeys()
    ensures TableKey(StringType) == "string" && TableKey(BinaryType) == "binary"
  {
  }

  lemma DateTimeKeys()
    ensures TableKey(DateType) == "date" && TableKey(TimeType) == "time"
  {
  }

  lemma ArrayMapKeys()
    ensures TableKey(ArrayType) == "array" && TableKey(MapType) == "map"
  {
  }

  lemma StructVariantKeys()
    ensures TableKey(StructType) == "struct" && TableKey(VariantType) == "variant"
  {
  }

  lemma LongTableKeys()
    ensures TableKey(TimestampType) == "timestamp" && TableKey(GeographyType) == "geography"
  {
  }

  /** The written-out entries are what the walk over the hierarchy produces: the
      table key of every class before DecimalType, in hierarchy order ... */
  lemma EntriesBeforeDecimal()
    ensures forall i :: 0 <= i < 8 ==> HierarchyEntries[i] == (TableKey(AllClasses[i]), AllClasses[i])
  {
    NumericTableKeys();
    ScalarTableKeys();
  }

  /** ... and of every class after it, DecimalType itself being skipped. */
  lemma EntriesAfterDecimal()
    ensures forall i :: 9 <= i < |AllClasses| ==> HierarchyEntries[i - 1] == (TableKey(AllClasses[i]), AllClasses[i])
  {
    ScalarEntriesAfterDecimal();
    ContainerEntriesAfterDecimal();
  }

  lemma ScalarEntriesAfterDecimal()
    ensures forall i :: 9 <= i < 14 ==> HierarchyEntries[i - 1] == (TableKey(AllClasses[i]), AllClasses[i])
  {
    StringBinaryKeys();
    DateTimeKeys();
    LongTableKeys();
  }

  lemma ContainerEntriesAfterDecimal()
    ensures forall i :: 14 <= i < |AllClasses| ==> HierarchyEntries[i - 1] == (TableKey(AllClasses[i]), AllClasses[i])
  {
    ArrayMapKeys();
    StructVariantKeys();
    LongTableKeys();
  }

  /** The name table holds an entry for every class except DecimalType, under the
      class's own key. */
  lemma HierarchyEntriesFollowClassNames()
    ensures |HierarchyEntries| == |AllClasses| - 1 && AllClasses[8] == DecimalType
    ensures forall i :: 0 <= i < |AllClasses| && i != 8 ==>
              HierarchyEntries[if i < 8 then i else i - 1] == (TableKey(AllClasses[i]), AllClasses[i])
  {
    EntriesBeforeDecimal();
    EntriesAfterDecimal();
  }

  /** No key of the table holds a parenthesis. */
  lemma NoKeyHasParenthesis()
    ensures forall i :: 0 <= i < |NameTable| ==> '(' !in NameTable[i].0
  {
  }

  /** Every entry except the first `array` one is the last assignment to its key. */
  lemma EarlyEntriesAreLast()
    ensures forall i :: 0 <= i < 13 ==> LastWith(NameTable, i)
  {
  }

  lemma LateEntriesAreLast()
    ensures forall i :: 14 <= i < |NameTable| ==> LastWith(NameTable, i)
  {
  }

  /** Looking a key up in a dictionary filled by the given assignments: the key is
      found when some assignment made it, and then the last assignment to it wins. */
  function Lookup(table: seq<(string, TypeClass)>, key: string): (r: Option<TypeClass>)
    ensures r.None? <==> forall i :: 0 <= i < |table| ==> table[i].0 != key
    ensures r.Some? ==> exists i :: 0 <= i < |table| && table[i] == (key, r.value) && LastWith(table, i)
  {
    if |table| == 0 then None
    else if table[|table| - 1].0 == key then Some(table[|table| - 1].1)
    else
      var r := Lookup(table[..|table| - 1], key);
      assert forall i :: 0 <= i < |table| - 1 ==> table[..|table| - 1][i] == table[i];
      r
  }

  /** Entry `i` is the last assignment to its key. */
  predicate LastWith(table: seq<(string, TypeClass)>, i: nat)
    requires i < |table|
  {
    forall j :: i < j < |table| ==> table[j].0 != table[i].0
  }

  /** The dictionary holds, for a key, the class of the last assignment to it. */
  lemma LookupLast(table: seq<(string, TypeClass)>, i: nat)
    requires i < |table| && LastWith(table, i)
    ensures Lookup(table, table[i].0) == Some(table[i].1)
  {
  }

  /** `_type_string_to_type_object`'s normalisation before the table lookup. */
  function Normalize(s: string): (r: string)
    ensures |r| <= |s|
    ensures ' ' !in r
    ensures forall i :: 0 <= i < |r| ==> !('A' <= r[i] <= 'Z')
  {
    Lower(RemoveSpaces(s))
  }

  /** Normalising twice is normalising once. */
  lemma NormalizeIdempotent(s: string)
    ensures Normalize(Normalize(s)) == Normalize(s)
  {
    var n := Normalize(s);
    RemoveSpacesNoSpace(n);
    LowerNoUpper(n);
  }

  // ---------------------------------------------------------------------------
  // The decimal pattern
  //   ^\s*(numeric|number|decimal)\s*\(\s*(\s*)(\d*)\s*,\s*(\d*)\s*\)\s*$

  const Keywords: seq<string> := ["numeric", "number", "decimal"]

  /** A decomposition of a string matched by the decimal pattern, one part per
      element of the pattern. The two adjacent `\s*` after the parenthesis are one
      part, since they match the same strings. */
  datatype DecimalParts = DecimalParts(
    lead: string,
    keyword: string,
    beforeOpen: string,
    afterOpen: string,
    precision: string,
    beforeComma: string,
    afterComma: string,
    scale: string,
    beforeClose: string,
    trail: string)

  /** The parts are drawn from the character classes the pattern prescribes. */
  predicate WellFormed(p: DecimalParts) {
    && AllSpace(p.lead)
    && p.keyword in Keywords
    && AllSpace(p.beforeOpen)
    && AllSpace(p.afterOpen)
    && AllDigits(p.precision)
    && AllSpace(p.beforeComma)
    && AllSpace(p.afterComma)
    && AllDigits(p.scale)
    && AllSpace(p.beforeClose)
    && AllSpace(p.trail)
  }

  /** The string a decomposition spells. */
  function Render(p: DecimalParts): string {
    p.lead + (p.keyword + (p.beforeOpen + ("(" + (p.afterOpen + (p.precision +
    (p.beforeComma + ("," + (p.afterComma + (p.scale + (p.beforeClose + (")" + p.trail)))))))))))
  }

  datatype CharClass = Spaces | Digits

  predicate InClass(c: char, cls: CharClass) {
    match cls
    case Spaces => IsSpace(c)
    case Digits => IsDigit(c)
  }

  predicate AllIn(s: string, cls: CharClass) {
    forall i :: 0 <= i < |s| ==> InClass(s[i], cls)
  }

  /** A greedy `\s*` or `\d*`: the longest prefix of `s` in the class, and the rest. */
  function Span(s: string, cls: CharClass): (r: (string, string))
    ensures r.0 + r.1 == s
    ensures AllIn(r.0, cls)
    ensures |r.1| == 0 || !InClass(r.1[0], cls)
  {
    if |s| > 0 && InClass(s[0], cls) then
      var (w, rest) := Span(s[1..], cls);
      var w' := [s[0]] + w;
      assert w' + rest == [s[0]] + (w + rest) == s;
      assert AllIn(w', cls) by {
        forall i | 0 <= i < |w'| ensures InClass(w'[i], cls) {
          if i > 0 {
            assert w'[i] == w[i - 1];
          }
        }
      }
      (w', rest)
    else ([], s)
  }

  /** The longest prefix in a class is unique. */
  lemma SpanUnique(w: string, t: string, cls: CharClass)
    requires AllIn(w, cls)
    requires |t| == 0 || !InClass(t[0], cls)
    ensures Span(w + t, cls) == (w, t)
  {
    var (a, b) := Span(w + t, cls);
    assert a == (a + b)[..|a|] && w == (w + t)[..|w|];
  }

  /** `(numeric|number|decimal)`: the keyword `s` starts with, and the rest. At most
      one keyword can start a string, so the alternation needs no backtracking. */
  function StripKeyword(s: string): (r: Option<(string, string)>)
    ensures r.Some? ==> r.value.0 in Keywords && r.value.0 + r.value.1 == s
  {
    if "numeric" <= s then Some(("numeric", s[7..]))
    else if "number" <= s then Some(("number", s[6..]))
    else if "decimal" <= s then Some(("decimal", s[7..]))
    else None
  }

  lemma StripKeywordOf(k: string, t: string)
    requires k in Keywords
    ensures StripKeyword(k + t) == Some((k, t))
  {
    var s := k + t;
    assert s[..|k|] == k;
    if k == "number" {
      assert s[3] == 'b' && !("numeric" <= s);
    } else if k == "decimal" {
      assert s[0] == 'd' && !("numeric" <= s) && !("number" <= s);
    }
  }

  /** `\s*(\d*)\s*` and then the delimiter: the digit group, the space around it
      and what follows the delimiter. */
  function MatchGroup(s: string, delim: char): (r: Option<(string, string, string, string)>)
    ensures r.Some? ==>
              var (w1, d, w2, rest) := r.value;
              && AllSpace(w1) && AllDigits(d) && AllSpace(w2)
              && s == w1 + (d + (w2 + ([delim] + rest)))
  {
    var (w1, s1) := Span(s, Spaces);
    var (d, s2) := Span(s1, Digits);
    var (w2, s3) := Span(s2, Spaces);
    if |s3| == 0 || s3[0] != delim then None
    else
      assert s3 == [delim] + s3[1..];
      Some((w1, d, w2, s3[1..]))
  }

  /** Whether or not the digit group is empty, the spans find it and stop at the
      delimiter. */
  lemma MatchGroupComplete(w1: string, d: string, w2: string, delim: char, rest: string)
    requires AllSpace(w1) && AllDigits(d) && AllSpace(w2)
    requires !IsSpace(delim) && !IsDigit(delim)
    ensures MatchGroup(w1 + (d + (w2 + ([delim] + rest))), delim).Some?
    ensures MatchGroup(w1 + (d + (w2 + ([delim] + rest))), delim).value.1 == d
    ensures MatchGroup(w1 + (d + (w2 + ([delim] + rest))), delim).value.3 == rest
  {
    var t := [delim] + rest;
    assert AllIn(w1, Spaces) && AllIn(d, Digits) && AllIn(w2, Spaces);
    if |d| > 0 {
      SpanUnique(w1, d + (w2 + t), Spaces);
      SpanUnique(d, w2 + t, Digits);
      SpanUnique(w2, t, Spaces);
    } else {
      assert w1 + (d + (w2 + t)) == (w1 + w2) + t;
      SpanUnique(w1 + w2, t, Spaces);
      SpanUnique([], t, Digits);
      assert [] + t == t;
      SpanUnique([], t, Spaces);
    }
    assert t[1..] == rest;
  }

  /** `_DECIMAL_RE.match`: the decomposition of `s`, when the pattern matches it.
      A match is sound: it spells `s` from parts of the right classes. */
  function MatchDecimal(s: string): (r: Option<DecimalParts>)
    ensures r.Some? ==> WellFormed(r.value) && Render(r.value) == s
  {
    var (lead, s1) := Span(s, Spaces);
    match StripKeyword(s1)
    case None => None
    case Some((kw, s2)) =>
      var (w, s3) := Span(s2, Spaces);
      if |s3| == 0 || s3[0] != '(' then None
      else
        assert s3 == "(" + s3[1..];
        match MatchGroup(s3[1..], ',')
        case None => None
        case Some((w3, d1, w4, s4)) =>
          match MatchGroup(s4, ')')
          case None => None
          case Some((w5, d2, w6, s5)) =>
            var (w7, s6) := Span(s5, Spaces);
            if |s6| != 0 then None
            else
              assert s5 == w7;
              Some(DecimalParts(lead, kw, w, w3, d1, w4, w5, d2, w6, w7))
  }

  /** A match is complete: every string the pattern describes is matched, with the
      same keyword and the same digit groups. */
  lemma {:induction false} MatchDecimalComplete(p: DecimalParts)
    requires WellFormed(p)
    ensures MatchDecimal(Render(p)).Some?
    ensures MatchDecimal(Render(p)).value.keyword == p.keyword
    ensures MatchDecimal(Render(p)).value.precision == p.precision
    ensures MatchDecimal(Render(p)).value.scale == p.scale
  {
    var tail3 := ")" + p.trail;
    var tail2 := "," + (p.afterComma + (p.scale + (p.beforeClose + tail3)));
    var tail1 := "(" + (p.afterOpen + (p.precision + (p.beforeComma + tail2)));
    var s1 := p.keyword + (p.beforeOpen + tail1);
    assert AllIn(p.lead, Spaces) && AllIn(p.beforeOpen, Spaces) && AllIn(p.trail, Spaces);
    SpanUnique(p.lead, s1, Spaces);
    StripKeywordOf(p.keyword, p.beforeOpen + tail1);
    SpanUnique(p.beforeOpen, tail1, Spaces);
    assert tail1[1..] == p.afterOpen + (p.precision + (p.beforeComma + tail2));
    MatchGroupComplete(p.afterOpen, p.precision, p.beforeComma, ',', tail2[1..]);
    assert tail2 == [','] + tail2[1..];
    MatchGroupComplete(p.afterComma, p.scale, p.beforeClose, ')', p.trail);
    SpanUnique(p.trail, [], Spaces);
    assert p.trail + [] == p.trail;
  }

  /** Every string the decimal pattern matches contains an opening parenthesis. */
  lemma MatchedHasParenthesis(s: string)
    requires MatchDecimal(s).Some?
    ensures '(' in s
  {
    var p := MatchDecimal(s).value;
    var i := |p.lead| + |p.keyword| + |p.beforeOpen|;
    assert s[i] == '(';
  }

  /** Neither removing spaces nor lower-casing loses a parenthesis. */
  lemma ParenthesisSurvivesNormalize(s: string)
    requires '(' in s
    ensures '(' in Normalize(s)
  {
    RemoveSpacesKeeps(s, '(');
    var r := RemoveSpaces(s);
    var j :| 0 <= j < |r| && r[j] == '(';
    assert Normalize(s)[j] == '(';
  }

  /** A string whose normalisation has no parenthesis is not matched by the
      decimal pattern. */
  lemma UnmatchedWithoutParenthesis(s: string)
    requires '(' !in Normalize(s)
    ensures MatchDecimal(s).None?
  {
    if MatchDecimal(s).Some? {
      MatchedHasParenthesis(s);
      ParenthesisSurvivesNormalize(s);
    }
  }

  /** Lower-casing creates no parenthesis. */
  lemma LowerKeepsNoParenthesis(s: string)
    requires '(' in Lower(s)
    ensures '(' in s
  {
    var j :| 0 <= j < |Lower(s)| && Lower(s)[j] == '(';
    assert s[j] == '(';
  }

  /** Parts drawn from the pattern's classes hold no upper-case letter. */
  lemma LowerOfClassed(s: string)
    requires AllSpace(s) || AllDigits(s)
    ensures Lower(s) == s
  {
    forall i | 0 <= i < |s| ensures !('A' <= s[i] <= 'Z') {
      assert IsSpace(s[i]) || IsDigit(s[i]);
    }
    LowerNoUpper(s);
  }

  lemma LowerConcat(a: string, b: string)
    requires Lower(a) == a && Lower(b) == b
    ensures Lower(a + b) == a + b
  {
    LowerAppend(a, b);
  }

  lemma LowerOfKeywords()
    ensures forall k :: k in Keywords ==> Lower(k) == k
  {
    LowerNoUpper("numeric");
    LowerNoUpper("number");
    LowerNoUpper("decimal");
  }

  /** A string the decimal pattern describes is already lower case. */
  lemma LowerOfRender(p: DecimalParts)
    requires WellFormed(p)
    ensures Lower(Render(p)) == Render(p)
  {
    LowerOfKeywords();
    LowerOfClassed(p.lead);
    LowerOfClassed(p.beforeOpen);
    LowerOfClassed(p.afterOpen);
    LowerOfClassed(p.precision);
    LowerOfClassed(p.beforeComma);
    LowerOfClassed(p.afterComma);
    LowerOfClassed(p.scale);
    LowerOfClassed(p.beforeClose);
    LowerOfClassed(p.trail);
    LowerNoUpper("(");
    LowerNoUpper(",");
    LowerNoUpper(")");
    LowerConcat(")", p.trail);
    LowerConcat(p.beforeClose, ")" + p.trail);
    var t1 := p.beforeClose + (")" + p.trail);
    LowerConcat(p.scale, t1);
    LowerConcat(p.afterComma, p.scale + t1);
    var t2 := p.afterComma + (p.scale + t1);
    LowerConcat(",", t2);
    LowerConcat(p.beforeComma, "," + t2);
    var t3 := p.beforeComma + ("," + t2);
    LowerConcat(p.precision, t3);
    LowerConcat(p.afterOpen, p.precision + t3);
    var t4 := p.afterOpen + (p.precision + t3);
    LowerConcat("(", t4);
    LowerConcat(p.beforeOpen, "(" + t4);
    var t5 := p.beforeOpen + ("(" + t4);
    LowerConcat(p.keyword, t5);
    LowerConcat(p.lead, p.keyword + t5);
  }

  /** A string the pattern matches is its own lower-case form. */
  lemma MatchedIsLower(s: string)
    requires MatchDecimal(s).Some?
    ensures Lower(s) == s
  {
    LowerOfRender(MatchDecimal(s).value);
  }

  // ---------------------------------------------------------------------------
  // Type string to data type

  /** `_get_number_precision_scale`: no match is `None`; a match converts both digit
      groups with `int()`, which fails on an empty group. */
  function NumberPrecisionScale(s: string): (r: Result<Option<(nat, nat)>, Error>)
    ensures r.Ok? && r.value.None? <==> MatchDecimal(s).None?
  {
    match MatchDecimal(s)
    case None => Ok(None)
    case Some(p) =>
      if |p.precision| == 0 then Err(InvalidDigits(p.precision))
      else if |p.scale| == 0 then Err(InvalidDigits(p.scale))
      else Ok(Some((DigitsValue(p.precision), DigitsValue(p.scale))))
  }

  /** The fallback of the decoder: the normalised string looked up in the table,
      and the class found called with no arguments. */
  function FromTable(s: string, d: Defaults): (r: Result<DataType, Error>)
    requires d.Valid()
    ensures r.Err? <==> forall i :: 0 <= i < |NameTable| ==> NameTable[i].0 != Normalize(s)
    ensures r.Ok? ==> exists i :: 0 <= i < |NameTable| && NameTable[i] == (Normalize(s), ClassOf(r.value))
    ensures r.Err? ==> r.error == UnknownTypeString(Normalize(s))
  {
    var key := Normalize(s);
    match Lookup(NameTable, key)
    case Some(c) => Ok(Nullary(c, d))
    case None => Err(UnknownTypeString(key))
  }

  /** `_type_string_to_type_object`. */
  function ParseTypeString(s: string, d: Defaults): (r: Result<DataType, Error>)
    requires d.Valid()
    ensures MatchDecimal(s).None? ==> r == FromTable(s, d)
    ensures MatchDecimal(s).Some? ==> r.Err? || r.value.Decimal?
  {
    var ps :- NumberPrecisionScale(s);
    if ps.Some? then Ok(Decimal(ps.value.0, ps.value.1)) else FromTable(s, d)
  }

  /** A string the decimal pattern matches decodes to a decimal built from its two
      digit groups, and fails on the `int("")` of an empty group. */
  lemma ParseDecimalPattern(s: string, d: Defaults)
    requires d.Valid() && MatchDecimal(s).Some?
    ensures var p := MatchDecimal(s).value;
            ParseTypeString(s, d) ==
              if |p.precision| == 0 || |p.scale| == 0 then Err(InvalidDigits(""))
              else Ok(Decimal(DigitsValue(p.precision), DigitsValue(p.scale)))
  {
  }

  /** A string whose normalisation is a key of the table, assigned last at entry `i`,
      decodes to what the class of that entry builds with no arguments. */
  lemma ParseByName(s: string, i: nat, d: Defaults)
    requires d.Valid() && i < |NameTable| && LastWith(NameTable, i)
    requires Normalize(s) == NameTable[i].0
    ensures ParseTypeString(s, d) == Ok(Nullary(NameTable[i].1, d))
  {
    NoKeyHasParenthesis();
    if MatchDecimal(s).Some? {
      MatchedHasParenthesis(s);
      ParenthesisSurvivesNormalize(s);
    }
    LookupLast(NameTable, i);
  }

  /** Every class except DecimalType is reachable by its table key, whatever the
      case and spacing of the string that spells it. */
  lemma ParseClassName(s: string, c: TypeClass, d: Defaults)
    requires d.Valid() && c != DecimalType && Normalize(s) == TableKey(c)
    ensures ParseTypeString(s, d) == Ok(Nullary(c, d))
  {
    HierarchyEntriesFollowClassNames();
    EarlyEntriesAreLast();
    LateEntriesAreLast();
    var k := ClassIndex(c);
    var i := if k < 8 then k else k - 1;
    if c == ArrayType {
      ParseByName(s, 25, d);
    } else {
      ParseByName(s, i, d);
    }
  }

  /** The warehouse aliases decode to the classes they are registered for. */
  lemma ParseAlias(s: string, i: nat, d: Defaults)
    requires d.Valid() && i < |AliasEntries| && Normalize(s) == AliasEntries[i].0
    ensures ParseTypeString(s, d) == Ok(Nullary(AliasEntries[i].1, d))
  {
    LateEntriesAreLast();
    ParseByName(s, |HierarchyEntries| + i, d);
  }

  /** A string that neither matches the decimal pattern nor normalises to a key is
      rejected, reporting its normalised form. */
  lemma ParseUnknown(s: string, d: Defaults)
    requires d.Valid() && MatchDecimal(s).None?
    requires forall i :: 0 <= i < |NameTable| ==> NameTable[i].0 != Normalize(s)
    ensures ParseTypeString(s, d) == Err(UnknownTypeString(Normalize(s)))
  {
  }

  // ---------------------------------------------------------------------------
  // Reading a warehouse name back

  /** The data type that reading back a type's warehouse name should give: the type
      itself, except that Null is named like String and a container's name carries
      no element types, so it reads back as the container class's default. */
  function Decoded(t: DataType, d: Defaults): (r: DataType)
    requires d.Valid()
    ensures IsAtomic(t) ==> r == t
    ensures ClassOf(r) == (if t.Null? then StringType else ClassOf(t))
  {
    match t
    case Null => String
    case Array(_) => d.arrayDefault
    case Map(_, _) => d.mapDefault
    case Struct(_) => d.structDefault
    case _ => t
  }

  /** The table entry a named type's warehouse name reads back through: the last
      assignment to its normalised name. */
  function NameIndex(t: DataType): (i: nat)
    requires !t.Struct? && !t.Decimal?
    ensures i < |NameTable| && i != 13
    ensures NameTable[i].1 == ClassOf(Decoded(t, Defaults(Decimal(0, 0), Array(Null), Map(Null, Null), Struct([]))))
  {
    match t
    case Null => 8
    case Boolean => 1
    case Float => 6
    case Double => 7
    case String => 8
    case Binary => 9
    case Date => 10
    case Time => 11
    case Timestamp => 12
    case Variant => 16
    case Geography => 17
    case Integer => 18
    case Short => 19
    case Byte => 20
    case Long => 21
    case Map(_, _) => 24
    case Array(_) => 25
  }

  lemma NormalizeIntegralNames(t: DataType)
    requires t.Byte? || t.Short? || t.Integer? || t.Long?
    ensures Normalize(ToSfType(t).value) == NameTable[NameIndex(t)].0
  {
  }

  lemma NormalizeFloatingNames(t: DataType)
    requires t.Float? || t.Double? || t.Boolean?
    ensures Normalize(ToSfType(t).value) == NameTable[NameIndex(t)].0
  {
  }

  lemma NormalizeStringNames(t: DataType)
    requires t.String? || t.Null?
    ensures Normalize(ToSfType(t).value) == NameTable[NameIndex(t)].0
  {
  }

  lemma NormalizeTemporalNames(t: DataType)
    requires t.Binary? || t.Date? || t.Time? || t.Timestamp?
    ensures Normalize(ToSfType(t).value) == NameTable[NameIndex(t)].0
  {
  }

  lemma NormalizeContainerNames(t: DataType)
    requires t.Array? || t.Map?
    ensures Normalize(ToSfType(t).value) == NameTable[NameIndex(t)].0
  {
  }

  lemma NormalizeSemiStructuredNames(t: DataType)
    requires t.Variant? || t.Geography?
    ensures Normalize(ToSfType(t).value) == NameTable[NameIndex(t)].0
  {
  }

  /** The warehouse name of every named type other than a decimal normalises to
      the key of its entry. */
  lemma NormalizeNames(t: DataType)
    requires !t.Struct? && !t.Decimal?
    ensures Normalize(ToSfType(t).value) == NameTable[NameIndex(t)].0
  {
    if t.Byte? || t.Short? || t.Integer? || t.Long? {
      NormalizeIntegralNames(t);
    } else if t.Float? || t.Double? || t.Boolean? {
      NormalizeFloatingNames(t);
    } else if t.String? || t.Null? {
      NormalizeStringNames(t);
    } else if t.Binary? || t.Date? || t.Time? || t.Timestamp? {
      NormalizeTemporalNames(t);
    } else if t.Array? || t.Map? {
      NormalizeContainerNames(t);
    } else {
      NormalizeSemiStructuredNames(t);
    }
  }

  /** The class of a name's entry builds what `Decoded` prescribes. */
  lemma NullaryOfNameIndex(t: DataType, d: Defaults)
    requires d.Valid() && !t.Struct? && !t.Decimal?
    ensures Nullary(NameTable[NameIndex(t)].1, d) == Decoded(t, d)
  {
    if Parameterless(NameTable[NameIndex(t)].1) {
      UnitIsTheOnlyInstance(Decoded(t, d));
    }
  }

  /** Every named type other than a decimal reads back as `Decoded`: atomic types
      exactly, Null as String and containers as their class's default. */
  lemma RoundTrip(t: DataType, d: Defaults)
    requires d.Valid() && !t.Struct? && !t.Decimal?
    ensures ParseTypeString(ToSfType(t).value, d) == Ok(Decoded(t, d))
  {
    var i := NameIndex(t);
    NormalizeNames(t);
    assert LastWith(NameTable, i) by {
      EarlyEntriesAreLast();
      LateEntriesAreLast();
    }
    ParseByName(ToSfType(t).value, i, d);
    NullaryOfNameIndex(t, d);
  }

  /** Normalisation works piecewise. */
  lemma NormalizeAppend(a: string, b: string)
    ensures Normalize(a + b) == Normalize(a) + Normalize(b)
  {
    RemoveSpacesAppend(a, b);
    LowerAppend(RemoveSpaces(a), RemoveSpaces(b));
  }

  /** The pieces of a decimal's warehouse name, normalised. */
  lemma DecimalNamePieces()
    ensures Normalize("NUMBER(") == "number(" && Normalize(", ") == "," && Normalize(")") == ")"
    ensures Lower("NUMBER(") == "number(" && Lower(", ") == ", " && Lower(")") == ")"
  {
  }

  /** The warehouse name of a decimal, lower-cased and without spaces. */
  lemma NormalizeDecimalName(p: nat, q: nat)
    ensures Normalize(ToSfType(Decimal(p, q)).value) == "number(" + NatToString(p) + "," + NatToString(q) + ")"
  {
    var ps, qs := NatToString(p), NatToString(q);
    DigitsAreLowerAndSpaceFree(ps);
    DigitsAreLowerAndSpaceFree(qs);
    DecimalNamePieces();
    NormalizeAppend("NUMBER(" + ps + ", " + qs, ")");
    NormalizeAppend("NUMBER(" + ps + ", ", qs);
    NormalizeAppend("NUMBER(" + ps, ", ");
    NormalizeAppend("NUMBER(", ps);
  }

  /** The decimal pattern is case-sensitive, so a decimal's upper-case warehouse
      name does not match it. */
  lemma DecimalNameUnmatched(p: nat, q: nat)
    ensures MatchDecimal(ToSfType(Decimal(p, q)).value).None?
  {
    var name := ToSfType(Decimal(p, q)).value;
    assert name[0] == 'N';
    CapitalUnmatched(name);
  }

  /** The decimal pattern allows only spaces before its lower-case keyword, so no
      string starting with a capital letter matches it. */
  lemma CapitalUnmatched(s: string)
    requires |s| > 0 && 'A' <= s[0] <= 'Z'
    ensures MatchDecimal(s).None?
  {
    assert Span(s, Spaces) == ([], s);
    assert StripKeyword(s).None? by {
      assert !("numeric" <= s) && !("number" <= s) && !("decimal" <= s) by {
        assert "numeric"[0] != s[0] && "number"[0] != s[0] && "decimal"[0] != s[0];
      }
    }
  }

  /** As written, a decimal's warehouse name does not read back: the decimal
      pattern does not match it, and once normalised it is no key of the table. */
  lemma DecimalRoundTripFails(p: nat, q: nat, d: Defaults)
    requires d.Valid()
    ensures ParseTypeString(ToSfType(Decimal(p, q)).value, d) ==
              Err(UnknownTypeString("number(" + NatToString(p) + "," + NatToString(q) + ")"))
  {
    var name := ToSfType(Decimal(p, q)).value;
    DecimalNameUnmatched(p, q);
    NormalizeDecimalName(p, q);
    NoKeyHasParenthesis();
    assert Normalize(name)[6] == '(';
  }

  /** Lower-cased, a decimal's warehouse name is a string the decimal pattern
      describes, with the printed precision and scale as its digit groups. */
  lemma LowerDecimalName(p: nat, q: nat)
    ensures var ps, qs := NatToString(p), NatToString(q);
            Lower(ToSfType(Decimal(p, q)).value) == Render(DecimalParts("", "number", "", "", ps, "", " ", qs, "", ""))
  {
    var ps, qs := NatToString(p), NatToString(q);
    assert ToSfType(Decimal(p, q)).value == "NUMBER(" + ps + ", " + qs + ")";
    LowerDecimalPieces(ps, qs);
    RenderLowerDecimal(ps, qs);
  }

  /** Lower-casing the pieces of a decimal's name leaves its digit groups alone. */
  lemma LowerDecimalPieces(ps: string, qs: string)
    requires AllDigits(ps) && AllDigits(qs)
    ensures Lower("NUMBER(" + ps + ", " + qs + ")") == "number(" + ps + ", " + qs + ")"
  {
    DigitsAreLowerAndSpaceFree(ps);
    DigitsAreLowerAndSpaceFree(qs);
    DecimalNamePieces();
    LowerOfFive("NUMBER(", ps, ", ", qs, ")");
  }

  /** The pieces the decimal pattern describes for a lower-cased decimal name. */
  lemma RenderLowerDecimal(ps: string, qs: string)
    ensures Render(DecimalParts("", "number", "", "", ps, "", " ", qs, "", "")) == "number(" + ps + ", " + qs + ")"
  {
  }

  /** Lower-casing works piecewise on a five-piece concatenation. */
  lemma LowerOfFive(a: string, b: string, c: string, d: string, e: string)
    ensures Lower(a + b + c + d + e) == Lower(a) + Lower(b) + Lower(c) + Lower(d) + Lower(e)
  {
    LowerAppend(a + b + c + d, e);
    LowerAppend(a + b + c, d);
    LowerAppend(a + b, c);
    LowerAppend(a, b);
  }

  /** The decoder with the case-insensitive decimal pattern the round trip needs:
      the pattern is tried on the lower-cased string. */
  function ParseTypeStringIgnoreCase(s: string, d: Defaults): (r: Result<DataType, Error>)
    requires d.Valid()
    ensures MatchDecimal(Lower(s)).None? ==> r == FromTable(s, d)
    ensures MatchDecimal(Lower(s)).Some? ==> r.Err? || r.value.Decimal?
  {
    var ps :- NumberPrecisionScale(Lower(s));
    if ps.Some? then Ok(Decimal(ps.value.0, ps.value.1)) else FromTable(s, d)
  }

  /** On every string the original pattern matches, and on every string no case
      of the pattern matches, the corrected decoder agrees with the original;
      `IgnoreCaseOnlyAdds` covers the strings only the lower-cased pattern
      matches. */
  lemma IgnoreCaseExtends(s: string, d: Defaults)
    requires d.Valid()
    requires MatchDecimal(s).Some? || MatchDecimal(Lower(s)).None?
    ensures ParseTypeStringIgnoreCase(s, d) == ParseTypeString(s, d)
  {
    if MatchDecimal(s).Some? {
      MatchedIsLower(s);
    } else {
      assert ParseTypeString(s, d) == FromTable(s, d);
    }
  }

  /** The corrected decoder only adds matches: where only the lower-cased string
      matches the pattern, the original decoder fails, since such a string keeps
      its parenthesis and no table key has one. */
  lemma IgnoreCaseOnlyAdds(s: string, d: Defaults)
    requires d.Valid()
    requires MatchDecimal(s).None? && MatchDecimal(Lower(s)).Some?
    ensures ParseTypeString(s, d) == Err(UnknownTypeString(Normalize(s)))
  {
    MatchedHasParenthesis(Lower(s));
    LowerKeepsNoParenthesis(s);
    ParenthesisSurvivesNormalize(s);
    NoKeyHasParenthesis();
    assert ParseTypeString(s, d) == FromTable(s, d);
  }

  /** Both decoders read a string whose normalisation is a table key the same way. */
  lemma IgnoreCaseAgreesOnNames(s: string, d: Defaults)
    requires d.Valid() && FromTable(s, d).Ok?
    ensures ParseTypeString(s, d) == FromTable(s, d)
    ensures ParseTypeStringIgnoreCase(s, d) == FromTable(s, d)
  {
    NoKeyHasParenthesis();
    if MatchDecimal(s).Some? {
      MatchedHasParenthesis(s);
      ParenthesisSurvivesNormalize(s);
    }
    if MatchDecimal(Lower(s)).Some? {
      MatchedHasParenthesis(Lower(s));
      LowerKeepsNoParenthesis(s);
      ParenthesisSurvivesNormalize(s);
    }
  }

  /** With the corrected decoder every named type reads back as `Decoded`, decimals
      included: precision and scale survive printing and parsing. */
  lemma RoundTripIgnoreCase(t: DataType, d: Defaults)
    requires d.Valid() && !t.Struct?
    ensures ParseTypeStringIgnoreCase(ToSfType(t).value, d) == Ok(Decoded(t, d))
  {
    var name := ToSfType(t).value;
    if t.Decimal? {
      var ps, qs := NatToString(t.precision), NatToString(t.scale);
      var parts := DecimalParts("", "number", "", "", ps, "", " ", qs, "", "");
      LowerDecimalName(t.precision, t.scale);
      assert WellFormed(parts);
      MatchDecimalComplete(parts);
      DigitsValueOfNatToString(t.precision);
      DigitsValueOfNatToString(t.scale);
    } else {
      RoundTrip(t, d);
      IgnoreCaseAgreesOnNames(name, d);
    }
  }

  // ---------------------------------------------------------------------------
  // Examples

  /** A string the decimal pattern describes, with space around any of its
      elements and in any of the three spellings, decodes to the decimal of its two
      digit groups. */
  lemma ParseDecimalParts(p: DecimalParts, d: Defaults)
    requires d.Valid() && WellFormed(p) && |p.precision| > 0 && |p.scale| > 0
    ensures ParseTypeString(Render(p), d) == Ok(Decimal(DigitsValue(p.precision), DigitsValue(p.scale)))
  {
    MatchDecimalComplete(p);
    ParseDecimalPattern(Render(p), d);
  }

  /** An empty digit group fails as `int("")` does. */
  lemma EmptyDigitsExample(d: Defaults)
    requires d.Valid()
    ensures ParseTypeString("number(,)", d) == Err(InvalidDigits(""))
  {
    var parts := DecimalParts("", "number", "", "", "", "", "", "", "", "");
    assert Render(parts) == "number(,)";
    assert WellFormed(parts);
    MatchDecimalComplete(parts);
    ParseDecimalPattern(Render(parts), d);
  }

  lemma DecimalIsNoKey()
    ensures forall i :: 0 <= i < |NameTable| ==> NameTable[i].0 != "decimal"
  {
  }

  /** The decimal keyword alone names nothing, whatever its case and spacing:
      DecimalType is left out of the walk over the hierarchy, and only `number`
      and `numeric` are aliased to it. */
  lemma BareDecimalKeyword(s: string, d: Defaults)
    requires d.Valid() && Normalize(s) == "decimal"
    ensures ParseTypeString(s, d) == Err(UnknownTypeString("decimal"))
  {
    assert '(' !in "decimal";
    UnmatchedWithoutParenthesis(s);
    DecimalIsNoKey();
    ParseUnknown(s, d);
  }
}
