# Snowpark type mapping, modelled in Dafny

This project models the type-mapping layer of the Snowpark Python client,
`src/snowflake/snowpark/_internal/type_utils.py`. That layer does six things:

- It encodes data types as warehouse type names (`convert_to_sf_type`).
- It decodes type strings back into data types (`_type_string_to_type_object`).
  This uses a name table and the `_DECIMAL_RE` pattern.
- It infers a data type from a Python value (`_infer_type`, `_type_mappings`,
  `_int_size_to_type`, `_array_type_mappings`).
- It infers the struct schema of a row (`_infer_schema`).
- It merges two inferred types (`_merge_type`).
- It converts Python type hints to data types (`_python_type_to_snow_type`,
  `_python_type_str_to_object`).

Every operation is a pure Dafny function over immutable datatypes. Each Python
exception is the `Err` case of a `Result` with an `Error` kind.

| file | module | contents |
|---|---|---|
| `results.dfy` | `Results` | `Option` and `Result` with the `:-` failure protocol |
| `data_types.dfy` | `DataTypes` | data types, struct fields, the Python class of each data type, zero-argument constructor defaults, error kinds |
| `text.dfy` | `Text` | ASCII `\s`, `\d`, `str.lower`, `str.replace(" ", "")`, `str(n)` and `int(digits)` |
| `type_strings.dfy` | `TypeStrings` | the encoder, the name table, a matcher for the decimal pattern, the decoder, the round trip |
| `inference.dfy` | `Inference` | Python values, the literal type table, typed-array codes, value inference |
| `schema.dfy` | `Schema` | row schema inference |
| `merge.dfy` | `Merge` | type merging |
| `type_hints.dfy` | `TypeHints` | type-hint conversion |

Four behaviours of the code are worth stating up front, because each is easy
to get wrong. Each has a lemma that shows it:

- **The decimal pattern is case-sensitive.** Only lower-case `numeric`,
  `number` and `decimal` match `_DECIMAL_RE` (type_utils.py:463-465), so
  `NUMBER(10, 2)` is rejected. The encoder writes that upper-case form, so a
  decimal does not survive the round trip (`TypeStrings.DecimalRoundTripFails`;
  see Findings).
- **A list's element type comes from its first item.** The code checks that some
  item is not None and then infers from `obj[0]` (type_utils.py:217), even when
  that item is None (`Inference.NoneFirstItemExample`).
- **Merging is left-biased, so not commutative.** Two atomic types of one class
  merge to the left one (type_utils.py:308-309), so `Decimal(10, 2)` and
  `Decimal(38, 0)` merge differently in the two orders
  (`Merge.NotCommutativeExample`).
- **Merging is idempotent only for canonical types**, whose struct fields have
  distinct names and are nullable (`Merge.MergeIdempotent`). A non-nullable field
  comes back nullable (`Merge.NonNullableFieldExample`), and two fields with one
  name can conflict (`Merge.DuplicateNameExample`). Duplicate names also make the
  grouping of a fold over rows matter (`Merge.NotAssociativeExample`). Without
  structs, merging is associative (`Merge.MergeAssociativeWithoutStructs`).

Two more edges of the code are kept:

- `Union[X, None]` is accepted as `Optional`, but `Union[None, X]` is not
  (`TypeHints.NoneFirstUnionRejected`).
- A dict hint with one argument raises `IndexError`
  (`TypeHints.DictNeedsTwoArguments`).

## Model

| member | source | states |
|---|---|---|
| TypeStrings.ToSfType | src/snowflake/snowpark/_internal/type_utils.py:48-85 | every data type but a struct has a warehouse name; a struct raises the unsupported-type error |
| TypeStrings.ToSfTypeInjective | src/snowflake/snowpark/_internal/type_utils.py:48-85 | two atomic types with the same warehouse name are equal, decimal precision and scale included |
| TypeStrings.DecimalNameSplits | src/snowflake/snowpark/_internal/type_utils.py:50 | the digit strings of `NUMBER(p, s)` are determined by the name |
| TypeStrings.HierarchyEntriesFollowClassNames | src/snowflake/snowpark/_internal/type_utils.py:444-446 | the table holds every class but DecimalType, keyed by its lower-cased name without the `Type` suffix, in hierarchy order |
| TypeStrings.TableKey | src/snowflake/snowpark/_internal/type_utils.py:446 | a class's key is its name with the `Type` suffix dropped, lower-cased |
| TypeStrings.Lookup | src/snowflake/snowpark/_internal/type_utils.py:482 | a dictionary lookup fails exactly for absent keys and otherwise returns the value of the LAST assignment to the key |
| TypeStrings.LookupLast | src/snowflake/snowpark/_internal/type_utils.py:451-461 | an assignment no later one overrides is what the lookup returns |
| TypeStrings.NoKeyHasParenthesis | src/snowflake/snowpark/_internal/type_utils.py:444-461 | no key of the name table contains `(` |
| TypeStrings.Span | src/snowflake/snowpark/_internal/type_utils.py:464 | a greedy `\s*` or `\d*` splits off the longest prefix in the class |
| TypeStrings.SpanUnique | src/snowflake/snowpark/_internal/type_utils.py:464 | greedy matching finds exactly a class prefix followed by a non-class character |
| TypeStrings.StripKeyword | src/snowflake/snowpark/_internal/type_utils.py:464 | the keyword alternative matched is one of `numeric`, `number`, `decimal` and a prefix of the input |
| TypeStrings.StripKeywordOf | src/snowflake/snowpark/_internal/type_utils.py:464 | each keyword is recognised before any continuation |
| TypeStrings.MatchGroup | src/snowflake/snowpark/_internal/type_utils.py:464 | a digit group with its surrounding whitespace and delimiter is recognised soundly |
| TypeStrings.MatchGroupComplete | src/snowflake/snowpark/_internal/type_utils.py:464 | every whitespace, digits, whitespace, delimiter sequence is recognised, with its digits and remainder |
| TypeStrings.MatchDecimal | src/snowflake/snowpark/_internal/type_utils.py:463-465 | soundness: a match is a decomposition into the pattern's parts whose concatenation is the input |
| TypeStrings.MatchDecimalComplete | src/snowflake/snowpark/_internal/type_utils.py:463-465 | completeness: every string of the pattern's shape matches, with its keyword and both digit groups recovered |
| TypeStrings.UnmatchedWithoutParenthesis | src/snowflake/snowpark/_internal/type_utils.py:463-465 | a string without `(` even after space removal and lower-casing never matches |
| TypeStrings.MatchedIsLower | src/snowflake/snowpark/_internal/type_utils.py:464 | the pattern is case-sensitive: every matched string is already lower-case |
| TypeStrings.NumberPrecisionScale | src/snowflake/snowpark/_internal/type_utils.py:469-472 | no precision and scale exactly when the pattern does not match |
| TypeStrings.FromTable | src/snowflake/snowpark/_internal/type_utils.py:479-484 | lookup of the space-free lower-cased string: fails exactly when no key equals it, with that normalised string in the error |
| TypeStrings.Normalize | src/snowflake/snowpark/_internal/type_utils.py:479-480 | the normalised string is no longer than the input and has no space and no upper-case letter |
| TypeStrings.NormalizeIdempotent | src/snowflake/snowpark/_internal/type_utils.py:479-480 | normalising twice is normalising once |
| TypeStrings.ParseTypeString | src/snowflake/snowpark/_internal/type_utils.py:475-484 | unmatched strings go to the table; matched ones give a decimal or fail |
| TypeStrings.ParseDecimalPattern | src/snowflake/snowpark/_internal/type_utils.py:469-478 | a matched string gives the decimal of its digit groups, or the `int("")` error for an empty group |
| TypeStrings.ParseDecimalParts | src/snowflake/snowpark/_internal/type_utils.py:463-478 | any padded lower-case decimal string with both digit groups decodes to that decimal |
| TypeStrings.EmptyDigitsExample | src/snowflake/snowpark/_internal/type_utils.py:472 | `number(,)` raises the `int("")` error |
| TypeStrings.ParseByName | src/snowflake/snowpark/_internal/type_utils.py:479-482 | a string normalising to a table key gives the zero-argument instance of that key's final class |
| DataTypes.Nullary | src/snowflake/snowpark/_internal/type_utils.py:482 | calling a class with no arguments gives an instance of that class: the only instance of a parameterless class, a default otherwise |
| TypeStrings.ParseClassName | src/snowflake/snowpark/_internal/type_utils.py:444-446 | a string normalising to a class's table key gives that class's zero-argument instance, for every class but DecimalType |
| TypeStrings.ParseAlias | src/snowflake/snowpark/_internal/type_utils.py:454-461 | the warehouse aliases decode to their classes |
| TypeStrings.ParseUnknown | src/snowflake/snowpark/_internal/type_utils.py:483-484 | an unmatched string with no key raises the unknown-type error carrying the normalised string |
| TypeStrings.DecimalIsNoKey | src/snowflake/snowpark/_internal/type_utils.py:445 | DecimalType has no table key: `decimal` is not a key |
| TypeStrings.BareDecimalKeyword | src/snowflake/snowpark/_internal/type_utils.py:444-446 | a bare `decimal` raises the unknown-type error |
| TypeStrings.Decoded | src/snowflake/snowpark/_internal/type_utils.py:63-66 | what decoding an encoded type gives: atomic types themselves, Null as String, containers as their default instances |
| TypeStrings.RoundTrip | src/snowflake/snowpark/_internal/type_utils.py:48-85 | decoding the warehouse name of every non-struct, non-decimal type gives the type back, Null as String and containers as defaults |
| TypeStrings.DecimalNameUnmatched | src/snowflake/snowpark/_internal/type_utils.py:463-465 | the upper-case name `NUMBER(p, s)` never matches the decimal pattern |
| TypeStrings.CapitalUnmatched | src/snowflake/snowpark/_internal/type_utils.py:463-465 | no string starting with a capital letter matches the decimal pattern, which allows only spaces before its lower-case keyword |
| TypeStrings.DecimalRoundTripFails | src/snowflake/snowpark/_internal/type_utils.py:49-50 | decoding the name of every decimal raises the unknown-type error for `number(p,s)` |
| TypeStrings.ParseTypeStringIgnoreCase | src/snowflake/snowpark/_internal/type_utils.py:469-484 | the corrected decoder matches the lower-cased string and otherwise behaves as the table lookup |
| TypeStrings.IgnoreCaseExtends | src/snowflake/snowpark/_internal/type_utils.py:475-484 | the corrected decoder agrees with the original wherever the original already matches, or neither matches |
| TypeStrings.IgnoreCaseOnlyAdds | src/snowflake/snowpark/_internal/type_utils.py:463-484 | where only the lower-cased string matches the pattern, the original decoder raises the unknown-type error, so the corrected decoder only turns failures into decimals |
| TypeStrings.IgnoreCaseAgreesOnNames | src/snowflake/snowpark/_internal/type_utils.py:479-482 | both decoders agree on every table name |
| TypeStrings.RoundTripIgnoreCase | src/snowflake/snowpark/_internal/type_utils.py:48-85 | with the corrected decoder every non-struct type round-trips, decimals included |
| Text.RemoveSpacesAppend | src/snowflake/snowpark/_internal/type_utils.py:479 | space removal distributes over concatenation |
| Text.RemoveSpacesKeeps | src/snowflake/snowpark/_internal/type_utils.py:479 | removing spaces keeps every other character |
| Text.RemoveSpaces | src/snowflake/snowpark/_internal/type_utils.py:479 | the result has no space and every other character as often as the input |
| Text.Lower | src/snowflake/snowpark/_internal/type_utils.py:480 | the result has the input's length and no upper-case letter; each capital becomes its small letter and every other character is kept |
| Text.DigitsValueOfNatToString | src/snowflake/snowpark/_internal/type_utils.py:242 | reading back the decimal digits of a natural gives the natural |
| Text.NatToStringInjective | src/snowflake/snowpark/_internal/type_utils.py:242 | distinct positions get distinct default names |
| Text.NatToString | src/snowflake/snowpark/_internal/type_utils.py:242 | `str(n)`: a non-empty string of digits with no leading zero, which reads back as `n` (`Text.DigitsValueOfNatToString`) |
| Text.DigitsValueAppend | src/snowflake/snowpark/_internal/type_utils.py:472 | `int` of the digits read so far, with one more digit, shifts one decimal place and adds that digit |
| Text.DigitsValueLeadingZero | src/snowflake/snowpark/_internal/type_utils.py:472 | `int` ignores a leading zero, so `number(007,2)` has precision 7 |
| Inference.ScalarType | src/snowflake/snowpark/_internal/type_utils.py:202 | exactly None, bool, int, float, str, bytes, bytearray, Decimal, date, datetime and time values have a literal type |
| Inference.TypeMapping | src/snowflake/snowpark/_internal/type_utils.py:95-107 | no literal Python type maps to a container class |
| Inference.TypeMappingParameterless | src/snowflake/snowpark/_internal/type_utils.py:95-107 | every literal class but DecimalType takes no parameters |
| Inference.TypeMappingCollisions | src/snowflake/snowpark/_internal/type_utils.py:95-107 | `bytes` and `bytearray` both map to Binary and nothing else does; only `int` maps to Long |
| Inference.IntSizeToType | src/snowflake/snowpark/_internal/type_utils.py:147-158 | a class exists exactly for sizes up to 64 bits, and it is the narrowest integral class that holds the size |
| Inference.ArrayTypeMapping | src/snowflake/snowpark/_internal/type_utils.py:162-190 | `f` gives Float, `d` Double and `u` String; integer codes give the narrowest class for the C size in bits, plus one for unsigned codes; no other code maps |
| Inference.ArrayMappingHoldsCType | src/snowflake/snowpark/_internal/type_utils.py:179-185 | no precision is lost: the class holds every value of the C type, unsigned ones included |
| Inference.LP64SignedCodes | src/snowflake/snowpark/_internal/type_utils.py:130-136 | under LP64 the signed codes map to Byte, Short, Integer, Long, Long |
| Inference.LP64UnsignedCodes | src/snowflake/snowpark/_internal/type_utils.py:138-144 | under LP64 `B`, `H`, `I` widen by one class and `L`, `Q` are unsupported |
| Inference.LLP64UnsignedLong | src/snowflake/snowpark/_internal/type_utils.py:138-144 | under LLP64 `L` is supported as Long and `l` is Integer |
| Inference.FirstComplete | src/snowflake/snowpark/_internal/type_utils.py:209-213 | the first dictionary entry with neither key nor value None, or none |
| Inference.InferType | src/snowflake/snowpark/_internal/type_utils.py:193-225 | None gives Null, a declared type is kept, scalars get their literal class and decimals (38, 18), dicts give maps and sequences arrays, other values raise; a typed array is an array of its code's class, or fails with its code when the code is unmapped |
| Inference.TypedArrayHoldsCType | src/snowflake/snowpark/_internal/type_utils.py:219-222 | a typed array of integers infers to an array whose element class holds every value of the code's C type, and fails exactly when no class is wide enough |
| Inference.InferSequence | src/snowflake/snowpark/_internal/type_utils.py:214-218 | an all-None sequence is an array of Null; otherwise an array |
| Inference.SequenceUsesFirstItem | src/snowflake/snowpark/_internal/type_utils.py:214-217 | a sequence with a non-None item is an array of its first item's type, and fails exactly when that item fails |
| Inference.NoneFirstItemExample | src/snowflake/snowpark/_internal/type_utils.py:217 | `[None, 5]` infers as an array of Null |
| Inference.DictUsesFirstCompleteEntry | src/snowflake/snowpark/_internal/type_utils.py:209-213 | a dict is a map of its first complete entry's key and value types, or of Null and Null |
| Inference.ScalarDependsOnTypeOnly | src/snowflake/snowpark/_internal/type_utils.py:202-207 | a scalar's inferred type depends on its Python type only, not its value |
| Inference.NoStructWithoutUdt | src/snowflake/snowpark/_internal/type_utils.py:193-225 | without user-defined types, inference never produces a struct |
| Schema.DefaultNames | src/snowflake/snowpark/_internal/type_utils.py:242 | the positional names `_lo` … `_hi-1`, in order |
| Schema.DefaultName | src/snowflake/snowpark/_internal/type_utils.py:242 | `_` followed by the decimal string of the position |
| Schema.DefaultNameInjective | src/snowflake/snowpark/_internal/type_utils.py:242 | the digits after `_` read back as the position, so different positions get different names |
| Schema.ColumnNames | src/snowflake/snowpark/_internal/type_utils.py:241-244 | given names first, positional names past their end; positional names only when none are given |
| Schema.Zip | src/snowflake/snowpark/_internal/type_utils.py:245 | pairs up to the shorter input |
| Schema.HeadName | src/snowflake/snowpark/_internal/type_utils.py:232 | the first given name, or `_1` when none or an empty list is given |
| Schema.IsEmptyRow | src/snowflake/snowpark/_internal/type_utils.py:231 | `not row` is tested only for a list, tuple or dict, and holds exactly when it has no items; a falsy scalar such as `0` is no empty row |
| Schema.DictItems | src/snowflake/snowpark/_internal/type_utils.py:235 | a dict row's items in insertion order |
| Schema.RowItems | src/snowflake/snowpark/_internal/type_utils.py:231-249 | a row fails exactly when it is not a dict, sequence or scalar literal, with the unsupported-row error |
| Schema.InferFields | src/snowflake/snowpark/_internal/type_utils.py:251-258 | one nullable field per pair, typed by inference; the first failing pair fails the row, naming its field |
| Schema.InferSchema | src/snowflake/snowpark/_internal/type_utils.py:228-259 | a struct of nullable fields, or an unsupported-row or field error |
| Schema.EmptyRowSchema | src/snowflake/snowpark/_internal/type_utils.py:231-232 | None or an empty row gives one Null column named by the first name or `_1` |
| Schema.SequenceRowSchema | src/snowflake/snowpark/_internal/type_utils.py:240-245 | a plain sequence has one column per item, named by the given names and positionally past their end |
| Schema.NamedRowSchema | src/snowflake/snowpark/_internal/type_utils.py:237-239 | a named tuple is named by its fields, whatever names are given |
| Schema.DictRowSchema | src/snowflake/snowpark/_internal/type_utils.py:234-235 | a dict is named by its keys in order, ignoring given names |
| Schema.ScalarRowSchema | src/snowflake/snowpark/_internal/type_utils.py:246-247 | a scalar row is one column of its inferred type |
| Schema.FieldErrorExample | src/snowflake/snowpark/_internal/type_utils.py:253-258 | a failing value fails the row with an error naming its column |
| Merge.LastType | src/snowflake/snowpark/_internal/type_utils.py:280 | the type of the last field of a name, or none when no field has it |
| Merge.Dedup | src/snowflake/snowpark/_internal/type_utils.py:291 | dictionary keys: each name once, in first-occurrence order |
| Merge.Missing | src/snowflake/snowpark/_internal/type_utils.py:290-292 | exactly the names not yet present, without repetition |
| Merge.Appended | src/snowflake/snowpark/_internal/type_utils.py:290-293 | one nullable field per appended name, in order, typed by the right's last field of that name, or Null when there is none |
| Merge.MergeType | src/snowflake/snowpark/_internal/type_utils.py:262-309 | Null is an identity on both sides, different classes conflict, the result keeps the class, equal atomic classes give the left type |
| Merge.MergeStructFields | src/snowflake/snowpark/_internal/type_utils.py:279-294 | the struct case fails exactly when a field merge fails; otherwise the left's fields come first, under their names |
| Merge.MergeArrays | src/snowflake/snowpark/_internal/type_utils.py:296-301 | the array case: an element conflict is the arrays' conflict, otherwise an array of the merged elements, keeping the class of a non-Null left element |
| Merge.MergeMaps | src/snowflake/snowpark/_internal/type_utils.py:303-307 | the map case: a key conflict is reported before a value conflict, otherwise a map of the merged keys and merged values |
| Merge.MergeFields | src/snowflake/snowpark/_internal/type_utils.py:281-289 | one nullable field per field of the left, under its name |
| Merge.MergeFieldTypes | src/snowflake/snowpark/_internal/type_utils.py:280-289 | each left field is merged with the right's last same-named field or with Null, and fails exactly when one of those does |
| Merge.MergeStructs | src/snowflake/snowpark/_internal/type_utils.py:279-294 | struct merge is the merged left fields followed by the appended right-only fields |
| Merge.AppendedFields | src/snowflake/snowpark/_internal/type_utils.py:290-293 | the appended fields are the right-only names, once each, nullable, typed by the right's last field of that name |
| Merge.StructMergePrefix | src/snowflake/snowpark/_internal/type_utils.py:281-289 | the left's fields come first, in order and under their names; every field is nullable |
| Merge.StructMergeSuffix | src/snowflake/snowpark/_internal/type_utils.py:290-294 | the later fields are new names, each once, typed by the right; every name of the right occurs |
| Merge.MissingKeepsOrder | src/snowflake/snowpark/_internal/type_utils.py:291-293 | filtering out known names keeps first-occurrence order |
| Merge.StructMergeOrder | src/snowflake/snowpark/_internal/type_utils.py:291-293 | right-only names are appended in the order of their first occurrence on the right |
| Merge.ArrayMerge | src/snowflake/snowpark/_internal/type_utils.py:296-301 | arrays merge element-wise |
| Merge.MapMerge | src/snowflake/snowpark/_internal/type_utils.py:303-307 | maps merge key-wise and value-wise independently |
| Merge.MergeAssociativeWithoutStructs | src/snowflake/snowpark/_internal/type_utils.py:262-309 | for types without structs, merging `(a, b)` then `c` and merging `a` with `(b, c)` fail together and otherwise agree |
| Merge.NotAssociativeExample | src/snowflake/snowpark/_internal/type_utils.py:279-294 | with a duplicated field name the grouping matters: one grouping succeeds where the other conflicts |
| Merge.NotCommutativeExample | src/snowflake/snowpark/_internal/type_utils.py:308-309 | decimals keep the left precision and scale, in either order |
| Merge.MergeIdempotent | src/snowflake/snowpark/_internal/type_utils.py:262-309 | a canonical type merges with itself to itself |
| Merge.NonNullableFieldExample | src/snowflake/snowpark/_internal/type_utils.py:281-287 | a non-nullable field comes back nullable from a self-merge |
| Merge.DuplicateNameExample | src/snowflake/snowpark/_internal/type_utils.py:280-286 | two fields of one name with different classes make a self-merge conflict |
| TypeHints.ResolveTypeString | src/snowflake/snowpark/_internal/type_utils.py:312-323 | four names resolve to their classes; every other string is evaluated in the module's own globals |
| TypeHints.PythonTypeToSnowType | src/snowflake/snowpark/_internal/type_utils.py:326-332 | strings resolve first, failing when unresolvable or too deep; only `Optional` hints are nullable |
| TypeHints.ConvertTypeObject | src/snowflake/snowpark/_internal/type_utils.py:334-375 | literal classes map to their table class with decimals (38, 18), bare lists and dicts default to String, subscripted lists and dicts without arguments default to String too, `Variant` and `Geography` give their own types, results are nullable exactly for `Optional`, and a string left after resolution, other bare classes and other subscriptions raise |
| TypeHints.HintAgreesWithInference | src/snowflake/snowpark/_internal/type_utils.py:334-337 | a literal class converts to exactly what inference gives its values |
| TypeHints.OptionalAddsNullability | src/snowflake/snowpark/_internal/type_utils.py:343-350 | `Optional[X]` is `X`'s type made nullable, failing exactly when `X` fails |
| TypeHints.NoneFirstUnionRejected | src/snowflake/snowpark/_internal/type_utils.py:343-350 | `Union[None, X]` is rejected |
| TypeHints.ListUsesFirstArgument | src/snowflake/snowpark/_internal/type_utils.py:352-358 | a subscripted list or tuple is an array of its first argument's type only |
| TypeHints.DictNeedsTwoArguments | src/snowflake/snowpark/_internal/type_utils.py:362-367 | a dict with one argument raises the index error once its key converts |
| TypeHints.DictUsesFirstTwoArguments | src/snowflake/snowpark/_internal/type_utils.py:362-367 | a dict with two or more arguments is a map of the first two |
| TypeHints.NoStructFromHints | src/snowflake/snowpark/_internal/type_utils.py:326-375 | no hint converts to a type containing a struct |
| TypeHints.DepthMonotone | src/snowflake/snowpark/_internal/type_utils.py:331-332 | a larger resolution bound changes no result other than the one it cut off |
| TypeHints.SpecialNamesIgnoreGlobals | src/snowflake/snowpark/_internal/type_utils.py:314-321 | the four special names convert without consulting the module's globals |
| TypeHints.StringNamesItsType | src/snowflake/snowpark/_internal/type_utils.py:322-332 | a string that names a type converts like that type |

## Left out

- The types module is not part of this model. The zero-argument constructors
  `DecimalType()`, `ArrayType()`, `MapType()` and `StructType()` are a
  `Defaults` parameter, known only to build an instance of their own class.
  Array `contains_null` and map `value_contains_null` are not modelled.
- The `__subclasses__` walk is an explicit table of the public classes in
  declaration order. The private `_`-prefixed abstract classes have no
  instances and are left out.
- `\s`, `\d` and `str.lower` are modelled on ASCII. The `\s` class includes the
  separators 0x1C-0x1F, as Python's does. Other Unicode whitespace, digits and
  case mappings are not modelled.
- Error message text is left out. Only the error kind and its data are kept.
  The `name` argument of `_merge_type` only shapes messages, so it is not
  modelled.
- `_retrieve_func_type_hints_from_source` reads a file and walks a Python AST.
  It is not modelled.
- `eval` in `_python_type_str_to_object` becomes a parameter: a function from
  strings to hints, where none stands for a string `eval` raises on.
- Python's recursion limit becomes a bound on nested string resolutions. A
  hint whose strings keep naming further strings fails at the bound.
- `ctypes.sizeof` is a parameter (`CSizes`), with LP64 and LLP64 given as
  constants.
- The `sys.version_info` check on line 189 is assumed true: the `u` code is
  always mapped.
- An object with `__UDT__` is a value case carrying its declared type. Other
  attribute lookups are not modelled.
- Schema.InferSchema: requires a dict row's keys to be strings, as field
  names are strings.
- Schema.ColumnNames: the source extends the caller's list of names in place.
  The model returns the extended list, and the mutation is not modelled.
- Python values are modelled by their exact type. A subclass of a literal
  type, such as a subclass of `int`, is not modelled.
- Merge.StructMergeSuffix: the source's promise about the appended part's
  length is stated as distinct, new names that cover every right-only name,
  rather than as a count.
- Merge.MergeType: associativity is proved only for types without structs.
  It fails with duplicate field names (`Merge.NotAssociativeExample`); for
  canonical structs it is not claimed.
- Merge.MergeFields and Merge.Appended: the source builds merged fields
  without a `nullable` argument (type_utils.py:282-287 and 293). The model makes
  them nullable. This assumes the `StructField` default is `nullable=True`; the
  types module that defines it is not part of this model. It also assumes that
  `StructField(k, …).name` is `k`, both for inferred fields and for merged ones.
- DataTypes.DataType: decimal precision and scale are natural numbers. A
  `DecimalType` built with negative arguments cannot be represented.

## Findings

| source | as written | input that shows it | evidently intended | confidence | as-written member | corrected member |
|---|---|---|---|---|---|---|
| src/snowflake/snowpark/_internal/type_utils.py:50 | `convert_to_sf_type` writes `NUMBER(p, s)`, but `_DECIMAL_RE` (line 464) only matches lower-case keywords, and `number(p,s)` is no table key | `Decimal(10, 2)` encodes to `NUMBER(10, 2)`, which decodes to the error for `number(10,2)` | decoding a decimal's warehouse name gives the decimal back, as it does for every other atomic type | not executed | TypeStrings.DecimalRoundTripFails | TypeStrings.RoundTripIgnoreCase |
