/** `_infer_schema`: the struct type of one row, with one nullable field per
    column, named by the row itself (a dict's keys, a named tuple's fields) or by
    the given names, extended with positional names `_1`, `_2`, … as needed. */
module Schema {
  import opened Results
  import opened DataTypes
  import opened Text
  import opened Inference

  /** The positional name of the `i`-th column, counting from one. */
  function DefaultName(i: nat): (r: string)
    ensures |r| >= 2 && r[0] == '_' && r[1..] == NatToString(i)
  {
    "_" + NatToString(i)
  }

  /** The digits of a positional name read back as its position, so different
      columns get different positional names. */
  lemma DefaultNameInjective(i: nat, j: nat)
    ensures AllDigits(DefaultName(i)[1..]) && DigitsValue(DefaultName(i)[1..]) == i
    ensures DefaultName(i) == DefaultName(j) <==> i == j
  {
    DigitsValueOfNatToString(i);
    if DefaultName(i) == DefaultName(j) {
      NatToStringInjective(i, j);
    }
  }

  /** The positional names `_lo` up to but excluding `_hi`. */
  function DefaultNames(lo: nat, hi: nat): (r: seq<string>)
    requires lo <= hi
    ensures |r| == hi - lo
    ensures forall i :: 0 <= i < |r| ==> r[i] == DefaultName(lo + i)
  {
    seq(hi - lo, i requires 0 <= i < hi - lo => DefaultName(lo + i))
  }

  /** The names a list or tuple row of `n` items is zipped with: the given names,
      extended with positional names up to `n`; positional names only when none
      are given. An empty list of names counts as given here. */
  function ColumnNames(names: Option<seq<string>>, n: nat): (r: seq<string>)
    ensures |r| >= n
    ensures names.Some? && |names.value| >= n ==> r == names.value
    ensures forall i :: 0 <= i < n ==>
              r[i] == if names.Some? && i < |names.value| then names.value[i] else DefaultName(i + 1)
  {
    if names.None? then DefaultNames(1, n + 1)
    else if |names.value| < n then names.value + DefaultNames(|names.value| + 1, n + 1)
    else names.value
  }

  /** `zip`: pairs up to the shorter of the two. */
  function Zip(names: seq<string>, items: seq<PyValue>): (r: seq<(string, PyValue)>)
    ensures |r| == if |names| < |items| then |names| else |items|
    ensures forall i :: 0 <= i < |r| ==> r[i] == (names[i], items[i])
  {
    var n := if |names| < |items| then |names| else |items|;
    seq(n, i requires 0 <= i < n => (names[i], items[i]))
  }

  /** The one name a single-column row gets: the first given name, or `_1` when
      none or an empty list is given. */
  function HeadName(names: Option<seq<string>>): (r: string)
    ensures names.Some? && |names.value| > 0 ==> r == names.value[0]
    ensures names.None? || |names.value| == 0 ==> r == DefaultName(1)
  {
    if names.Some? && |names.value| > 0 then names.value[0] else DefaultName(1)
  }

  /** An empty list, tuple or dict: a falsy row. Only those containers are
      tested for emptiness: a falsy scalar such as `0` or `""` is no empty row. */
  function IsEmptyRow(row: PyValue): (r: bool)
    ensures r ==> row.PyDict? || row.PyList? || row.PyTuple? || row.PyNamedTuple?
    ensures row.PyDict? ==> (r <==> |row.entries| == 0)
    ensures row.PyList? || row.PyTuple? || row.PyNamedTuple? ==> (r <==> |row.items| == 0)
  {
    || (row.PyDict? && |row.entries| == 0)
    || ((row.PyList? || row.PyTuple? || row.PyNamedTuple?) && |row.items| == 0)
  }

  /** A dict row's keys become field names, which are strings. */
  predicate KeysAreStrings(row: PyValue) {
    row.PyDict? ==> forall i :: 0 <= i < |row.entries| ==> row.entries[i].0.PyStr?
  }

  /** `row.items()` of a dict row: its keys with their values, in insertion order. */
  function DictItems(entries: seq<(PyValue, PyValue)>): (r: seq<(string, PyValue)>)
    requires forall i :: 0 <= i < |entries| ==> entries[i].0.PyStr?
    ensures |r| == |entries|
    ensures forall i :: 0 <= i < |r| ==> r[i] == (entries[i].0.s, entries[i].1)
  {
    if |entries| == 0 then []
    else [(entries[0].0.s, entries[0].1)] + DictItems(entries[1..])
  }

  /** `type(row).__name__` for the rows schema inference rejects. */
  function TypeName(row: PyValue): string {
    match row
    case PyArray(_, _) => "array"
    case PyUdt(name, _) => name
    case PyOther(name) => name
    case _ => "object"
  }

  /** The (name, value) pairs of a row, or the rejection of a row of another shape. */
  function RowItems(row: PyValue, names: Option<seq<string>>): (r: Result<seq<(string, PyValue)>, Error>)
    requires KeysAreStrings(row)
    ensures r.Err? <==> !(row.PyDict? || row.PyList? || row.PyTuple? || row.PyNamedTuple? || ScalarType(row).Some?)
    ensures r.Err? ==> r.error == UnsupportedRow(TypeName(row))
  {
    if row.PyNone? || IsEmptyRow(row) then Ok([(HeadName(names), PyNone)])
    else
      match row
      case PyDict(entries) => Ok(DictItems(entries))
      case PyNamedTuple(fields, items) =>
        if |fields| > 0 then Ok(Zip(fields, items)) else Ok(Zip(ColumnNames(names, |items|), items))
      case PyList(items) => Ok(Zip(ColumnNames(names, |items|), items))
      case PyTuple(items) => Ok(Zip(ColumnNames(names, |items|), items))
      case _ =>
        if ScalarType(row).Some? then Ok([(HeadName(names), row)]) else Err(UnsupportedRow(TypeName(row)))
  }

  /** One nullable field per pair, in order, typed by inference; the first pair
      whose value cannot be inferred fails the whole row, naming its field. */
  function InferFields(items: seq<(string, PyValue)>, sizes: CSizes): (r: Result<seq<StructField>, Error>)
    ensures r.Ok? <==> forall i :: 0 <= i < |items| ==> InferType(items[i].1, sizes).Ok?
    ensures r.Ok? ==> |r.value| == |items|
    ensures r.Ok? ==> forall i :: 0 <= i < |items| ==>
              r.value[i] == StructField(items[i].0, InferType(items[i].1, sizes).value, true)
    ensures r.Err? ==> exists i :: 0 <= i < |items| && InferType(items[i].1, sizes).Err?
                         && (forall j :: 0 <= j < i ==> InferType(items[j].1, sizes).Ok?)
                         && r.error == FieldInference(items[i].0, InferType(items[i].1, sizes).error)
  {
    if |items| == 0 then Ok([])
    else
      match InferType(items[0].1, sizes)
      case Err(e) => Err(FieldInference(items[0].0, e))
      case Ok(t) =>
        var rest :- InferFields(items[1..], sizes);
        Ok([StructField(items[0].0, t, true)] + rest)
  }

  /** `_infer_schema`. */
  function InferSchema(row: PyValue, names: Option<seq<string>>, sizes: CSizes): (r: Result<DataType, Error>)
    requires KeysAreStrings(row)
    ensures r.Ok? ==> r.value.Struct?
    ensures r.Ok? ==> forall i :: 0 <= i < |r.value.fields| ==> r.value.fields[i].nullable
    ensures r.Err? ==> r.error.UnsupportedRow? || r.error.FieldInference?
  {
    var items :- RowItems(row, names);
    var fields :- InferFields(items, sizes);
    Ok(Struct(fields))
  }

  /** None and an empty list, tuple or dict give one Null column, named by the
      first given name or `_1`. */
  lemma EmptyRowSchema(row: PyValue, names: Option<seq<string>>, sizes: CSizes)
    requires row.PyNone? || IsEmptyRow(row)
    ensures InferSchema(row, names, sizes) == Ok(Struct([StructField(HeadName(names), Null, true)]))
  {
    var items := [(HeadName(names), PyNone)];
    assert RowItems(row, names) == Ok(items);
    assert InferFields(items, sizes).value == [StructField(HeadName(names), Null, true)];
  }

  /** A non-empty list or tuple without field names gives one column per item,
      named by the given names in order and positionally past their end; surplus
      names are dropped. */
  lemma SequenceRowSchema(row: PyValue, names: Option<seq<string>>, sizes: CSizes)
    requires row.PyList? || row.PyTuple? || (row.PyNamedTuple? && |row.fields| == 0)
    requires |row.items| > 0 && InferSchema(row, names, sizes).Ok?
    ensures var fields := InferSchema(row, names, sizes).value.fields;
            && |fields| == |row.items|
            && forall i :: 0 <= i < |fields| ==>
                 && fields[i].name == (if names.Some? && i < |names.value| then names.value[i] else DefaultName(i + 1))
                 && fields[i].dataType == InferType(row.items[i], sizes).value
  {
    assert !IsEmptyRow(row);
  }

  /** A named tuple or `Row` with field names is named by them, whatever names are
      given, and has as many columns as the shorter of fields and items. */
  lemma NamedRowSchema(row: PyValue, names: Option<seq<string>>, sizes: CSizes)
    requires row.PyNamedTuple? && |row.fields| > 0 && |row.items| > 0
    requires InferSchema(row, names, sizes).Ok?
    ensures var fields := InferSchema(row, names, sizes).value.fields;
            && |fields| == (if |row.fields| < |row.items| then |row.fields| else |row.items|)
            && forall i :: 0 <= i < |fields| ==> fields[i].name == row.fields[i]
  {
    assert !IsEmptyRow(row);
  }

  /** A dict row is named by its keys, in insertion order; given names are
      ignored. */
  lemma DictRowSchema(entries: seq<(PyValue, PyValue)>, names: Option<seq<string>>, sizes: CSizes)
    requires |entries| > 0 && KeysAreStrings(PyDict(entries))
    ensures InferSchema(PyDict(entries), names, sizes) == InferSchema(PyDict(entries), None, sizes)
    ensures InferSchema(PyDict(entries), names, sizes).Ok? ==>
              var fields := InferSchema(PyDict(entries), names, sizes).value.fields;
              && |fields| == |entries|
              && forall i :: 0 <= i < |fields| ==> fields[i].name == entries[i].0.s
  {
    assert !IsEmptyRow(PyDict(entries));
  }

  /** A scalar row is one column of its inferred type. */
  lemma ScalarRowSchema(row: PyValue, names: Option<seq<string>>, sizes: CSizes)
    requires ScalarType(row).Some?
    ensures InferSchema(row, names, sizes) == Ok(Struct([StructField(HeadName(names), InferType(row, sizes).value, true)]))
  {
    var items := [(HeadName(names), row)];
    assert RowItems(row, names) == Ok(items);
    assert InferFields(items, sizes).value == [StructField(HeadName(names), InferType(row, sizes).value, true)];
  }

  /** A value inference rejects fails the row, and the error names its column. */
  lemma FieldErrorExample(sizes: CSizes)
    ensures InferSchema(PyList([PyInt(1), PyOther("set")]), None, sizes)
              == Err(FieldInference(DefaultName(2), UnsupportedValue("set")))
  {
    var pairs := [(DefaultName(1), PyInt(1)), (DefaultName(2), PyOther("set"))];
    ListRowPairs(PyInt(1), PyOther("set"));
    SecondFieldFails(pairs, sizes);
  }

  /** A two-item list row without names pairs its items with `_1` and `_2`. */
  lemma ListRowPairs(x: PyValue, y: PyValue)
    requires KeysAreStrings(PyList([x, y]))
    ensures RowItems(PyList([x, y]), None) == Ok([(DefaultName(1), x), (DefaultName(2), y)])
  {
    var pairs := Zip(ColumnNames(None, 2), [x, y]);
    assert pairs == [(DefaultName(1), x), (DefaultName(2), y)];
  }

  /** The second value is rejected, so the fields fail naming the second column. */
  lemma SecondFieldFails(pairs: seq<(string, PyValue)>, sizes: CSizes)
    requires pairs == [(DefaultName(1), PyInt(1)), (DefaultName(2), PyOther("set"))]
    ensures InferFields(pairs, sizes) == Err(FieldInference(DefaultName(2), UnsupportedValue("set")))
  {
    assert pairs[1..] == [(DefaultName(2), PyOther("set"))];
    assert InferFields(pairs[1..], sizes) == Err(FieldInference(DefaultName(2), UnsupportedValue("set")));
  }
}
