/** `_merge_type`: the common data type of two inferred types. Null gives way to
    anything; types of two different classes conflict; structs merge field by
    field, arrays element-wise, maps key-wise then value-wise; two atomic types of
    the same class merge to the left one. */
module Merge {
  import opened Results
  import opened DataTypes

  // ---------------------------------------------------------------------------
  // Struct fields by name

  function Names(fs: seq<StructField>): (r: seq<string>)
    ensures |r| == |fs| && forall i :: 0 <= i < |fs| ==> r[i] == fs[i].name
  {
    seq(|fs|, i requires 0 <= i < |fs| => fs[i].name)
  }

  /** `{f.name: f.datatype for f in fields}.get(n)`: the type of the last field
      named `n`, as the later assignment to a dictionary key wins. */
  function LastType(fs: seq<StructField>, n: string): (r: Option<DataType>)
    ensures r.None? <==> forall i :: 0 <= i < |fs| ==> fs[i].name != n
    ensures r.Some? ==> exists i :: 0 <= i < |fs| && fs[i].name == n && fs[i].dataType == r.value
                                    && forall j :: i < j < |fs| ==> fs[j].name != n
  {
    if |fs| == 0 then None
    else if fs[|fs| - 1].name == n then Some(fs[|fs| - 1].dataType)
    else
      var init := fs[..|fs| - 1];
      var r := LastType(init, n);
      assert forall i :: 0 <= i < |init| ==> init[i] == fs[i];
      assert r.Some? ==> exists i :: 0 <= i < |fs| && fs[i].name == n && fs[i].dataType == r.value
                                     && forall j :: i < j < |fs| ==> fs[j].name != n by {
        if r.Some? {
          var i :| 0 <= i < |init| && init[i].name == n && init[i].dataType == r.value
                   && forall j :: i < j < |init| ==> init[j].name != n;
          assert fs[i] == init[i];
        }
      }
      r
  }

  /** The index of the first occurrence of `x` in `s`. */
  function FirstIndex(s: seq<string>, x: string): (i: nat)
    requires x in s
    ensures i < |s| && s[i] == x && x !in s[..i]
  {
    if s[0] == x then 0
    else
      assert x in s[1..];
      var j := FirstIndex(s[1..], x);
      assert s[..j + 1] == [s[0]] + s[1..][..j];
      j + 1
  }

  predicate Distinct(s: seq<string>) {
    forall i, j :: 0 <= i < j < |s| ==> s[i] != s[j]
  }

  /** The keys of a dictionary filled from `s`, in insertion order: each string
      once, where it first occurs. */
  function Dedup(s: seq<string>): (r: seq<string>)
    ensures Distinct(r)
    ensures forall x :: x in r <==> x in s
    ensures forall i, j :: 0 <= i < j < |r| ==> FirstIndex(s, r[i]) < FirstIndex(s, r[j])
  {
    if |s| == 0 then []
    else
      var init := s[..|s| - 1];
      var last := s[|s| - 1];
      var r := Dedup(init);
      assert s == init + [last];
      FirstIndexOfPrefix(init, last, r);
      if last in r then r else r + [last]
  }

  /** Appending to a sequence moves no first occurrence. */
  lemma FirstIndexOfPrefix(init: seq<string>, last: string, r: seq<string>)
    requires forall x :: x in r ==> x in init
    ensures forall x :: x in r ==> FirstIndex(init + [last], x) == FirstIndex(init, x)
    ensures last !in init ==> FirstIndex(init + [last], last) == |init|
  {
    var s := init + [last];
    forall x | x in r ensures FirstIndex(s, x) == FirstIndex(init, x) {
      var k := FirstIndex(init, x);
      assert s[k] == x && s[..k] == init[..k];
    }
    if last !in init {
      assert s[|init|] == last && s[..|init|] == init;
    }
  }

  /** The names of `order` not among `known`, in order. */
  function Missing(order: seq<string>, known: seq<string>): (r: seq<string>)
    ensures forall x :: x in r <==> x in order && x !in known
    ensures Distinct(order) ==> Distinct(r)
  {
    if |order| == 0 then []
    else
      var rest := Missing(order[1..], known);
      assert forall x :: x in order[1..] ==> x in order;
      if order[0] in known then rest
      else
        assert Distinct(order) ==> order[0] !in order[1..];
        [order[0]] + rest
  }

  /** No name is missing when all are known. */
  lemma {:induction false} NoneMissing(order: seq<string>, known: seq<string>)
    requires forall x :: x in order ==> x in known
    ensures Missing(order, known) == []
  {
    if |order| > 0 {
      assert order[0] in order;
      assert forall x :: x in order[1..] ==> x in order;
      NoneMissing(order[1..], known);
    }
  }

  /** The fields appended after `a`'s, one per name, each with the type of `b`'s
      last field of that name and nullable. */
  function Appended(bf: seq<StructField>, names: seq<string>): (r: seq<StructField>)
    ensures Names(r) == names
    ensures forall i :: 0 <= i < |r| ==> r[i].nullable
    ensures forall i :: 0 <= i < |r| ==> LastType(bf, names[i]).Some? ==> r[i].dataType == LastType(bf, names[i]).value
    ensures forall i :: 0 <= i < |r| ==> LastType(bf, names[i]).None? ==> r[i].dataType.Null?
  {
    seq(|names|, i requires 0 <= i < |names| => StructField(names[i], LastType(bf, names[i]).GetOr(Null), true))
  }

  /** Every name of the fields has a last field. */
  lemma NamesHaveLastType(bf: seq<StructField>)
    ensures forall x :: x in Dedup(Names(bf)) ==> LastType(bf, x).Some?
  {
    forall x | x in Dedup(Names(bf)) ensures LastType(bf, x).Some? {
      var k := FirstIndex(Names(bf), x);
      assert bf[k].name == x;
    }
  }

  // ---------------------------------------------------------------------------
  // Merging

  /** `_merge_type`. The message context argument is left out. */
  function MergeType(a: DataType, b: DataType): (r: Result<DataType, Error>)
    ensures a.Null? ==> r == Ok(b)
    ensures !a.Null? && b.Null? ==> r == Ok(a)
    ensures !a.Null? && !b.Null? && ClassOf(a) != ClassOf(b) ==> r == Err(MergeConflict(ClassOf(a), ClassOf(b)))
    ensures r.Ok? ==> ClassOf(r.value) == (if a.Null? then ClassOf(b) else ClassOf(a))
    ensures IsAtomic(a) && ClassOf(a) == ClassOf(b) ==> r == Ok(a)
    decreases a, 2
  {
    if a.Null? then Ok(b)
    else if b.Null? then Ok(a)
    else if ClassOf(a) != ClassOf(b) then Err(MergeConflict(ClassOf(a), ClassOf(b)))
    else if a.Struct? then MergeStructFields(a.fields, b.fields)
    else if a.Array? then MergeArrays(a.element, b.element)
    else if a.Map? then MergeMaps(a.key, a.value, b.key, b.value)
    else Ok(a)
  }

  /** The array case of `_merge_type`: the elements merged. A conflict between
      the elements is the arrays' conflict, and the merged element keeps the
      class of a non-Null left element. */
  function MergeArrays(x: DataType, y: DataType): (r: Result<DataType, Error>)
    ensures r.Err? <==> MergeType(x, y).Err?
    ensures r.Err? ==> r.error == MergeType(x, y).error
    ensures r.Ok? ==> r.value.Array? && r.value.element == MergeType(x, y).value
    ensures r.Ok? && !x.Null? ==> ClassOf(r.value.element) == ClassOf(x)
    decreases Array(x), 1
  {
    var e :- MergeType(x, y);
    Ok(Array(e))
  }

  /** The map case of `_merge_type`: keys merged, then values. A key conflict
      is reported before a value conflict. */
  function MergeMaps(k1: DataType, v1: DataType, k2: DataType, v2: DataType): (r: Result<DataType, Error>)
    ensures MergeType(k1, k2).Err? ==> r == Err(MergeType(k1, k2).error)
    ensures MergeType(k1, k2).Ok? && MergeType(v1, v2).Err? ==> r == Err(MergeType(v1, v2).error)
    ensures r.Ok? <==> MergeType(k1, k2).Ok? && MergeType(v1, v2).Ok?
    ensures r.Ok? ==> r.value == Map(MergeType(k1, k2).value, MergeType(v1, v2).value)
    decreases Map(k1, v1), 1
  {
    var k :- MergeType(k1, k2);
    var v :- MergeType(v1, v2);
    Ok(Map(k, v))
  }

  /** The struct case of `_merge_type`: the merged fields of `a`, followed by
      the names only `b` has. */
  function MergeStructFields(af: seq<StructField>, bf: seq<StructField>): (r: Result<DataType, Error>)
    ensures r.Err? <==> MergeFields(af, bf).Err?
    ensures r.Ok? ==> r.value.Struct? && |r.value.fields| >= |af|
    ensures r.Ok? ==> forall i :: 0 <= i < |af| ==> r.value.fields[i].name == af[i].name
    decreases af, 1
  {
    var fs :- MergeFields(af, bf);
    Ok(Struct(fs + Appended(bf, Missing(Dedup(Names(bf)), Names(af)))))
  }

  /** The fields of `a` in order, each merged with the type of the last field of
      `b` of the same name, or with Null when `b` has none, and made nullable. */
  function MergeFields(af: seq<StructField>, bf: seq<StructField>): (r: Result<seq<StructField>, Error>)
    ensures r.Ok? ==> |r.value| == |af|
    ensures r.Ok? ==> forall i :: 0 <= i < |af| ==> r.value[i].name == af[i].name && r.value[i].nullable
    decreases af, 0
  {
    if |af| == 0 then Ok([])
    else
      assert af[0] in af;
      var t :- MergeType(af[0].dataType, LastType(bf, af[0].name).GetOr(Null));
      var rest :- MergeFields(af[1..], bf);
      Ok([StructField(af[0].name, t, true)] + rest)
  }

  // ---------------------------------------------------------------------------
  // Properties

  /** Each field of `a` is merged with the last same-named field of `b`, or with
      Null; the merge fails exactly when one of these field merges fails. */
  lemma {:induction false} MergeFieldTypes(af: seq<StructField>, bf: seq<StructField>)
    ensures MergeFields(af, bf).Ok? <==>
              forall i :: 0 <= i < |af| ==> MergeType(af[i].dataType, LastType(bf, af[i].name).GetOr(Null)).Ok?
    ensures MergeFields(af, bf).Ok? ==> forall i :: 0 <= i < |af| ==>
              MergeFields(af, bf).value[i].dataType == MergeType(af[i].dataType, LastType(bf, af[i].name).GetOr(Null)).value
  {
    if |af| > 0 {
      MergeFieldTypes(af[1..], bf);
      assert forall i :: 1 <= i < |af| ==> af[1..][i - 1] == af[i];
    }
  }

  /** Two structs merge to the merged fields of `a` followed by the appended
      fields of `b`. */
  lemma MergeStructs(af: seq<StructField>, bf: seq<StructField>)
    ensures var m := MergeFields(af, bf);
            MergeType(Struct(af), Struct(bf)) ==
              if m.Err? then Err(m.error) else Ok(Struct(m.value + Appended(bf, Missing(Dedup(Names(bf)), Names(af)))))
  {
    var a := Struct(af);
    assert !a.Null? && ClassOf(a) == ClassOf(Struct(bf));
    assert MergeType(a, Struct(bf)) == MergeStructFields(af, bf);
  }

  /** The appended fields: the missing names of `b`, once each, with the type of
      `b`'s last field of that name. */
  lemma AppendedFields(bf: seq<StructField>, known: seq<string>)
    ensures var missing := Missing(Dedup(Names(bf)), known);
            var e := Appended(bf, missing);
            && Names(e) == missing
            && (forall i :: 0 <= i < |e| ==> e[i].nullable && e[i].name !in known)
            && (forall i :: 0 <= i < |e| ==> LastType(bf, e[i].name) == Some(e[i].dataType))
            && Distinct(Names(e))
            && (forall x :: x in Names(bf) && x !in known ==> x in Names(e))
  {
    NamesHaveLastType(bf);
  }

  /** Merging two structs keeps `a`'s fields first, in order and under their
      names, and makes every field of the result nullable. */
  lemma StructMergePrefix(af: seq<StructField>, bf: seq<StructField>)
    requires MergeType(Struct(af), Struct(bf)).Ok?
    ensures var fs := MergeType(Struct(af), Struct(bf)).value.fields;
            && |fs| >= |af|
            && (forall i :: 0 <= i < |fs| ==> fs[i].nullable)
            && (forall i :: 0 <= i < |af| ==> fs[i].name == af[i].name)
  {
    MergeStructs(af, bf);
    AppendedFields(bf, Names(af));
  }

  /** Appending new, distinctly named fields typed by `b`: the suffix keeps
      those properties. */
  lemma ConcatSuffix(m: seq<StructField>, e: seq<StructField>, known: seq<string>, bf: seq<StructField>)
    requires forall i :: 0 <= i < |e| ==> e[i].name !in known && LastType(bf, e[i].name) == Some(e[i].dataType)
    requires Distinct(Names(e))
    ensures var fs := m + e;
            && (forall i :: |m| <= i < |fs| ==>
                  fs[i].name !in known && LastType(bf, fs[i].name) == Some(fs[i].dataType))
            && Distinct(Names(fs)[|m|..])
  {
    var fs := m + e;
    assert forall i :: |m| <= i < |fs| ==> fs[i] == e[i - |m|];
    assert Names(fs)[|m|..] == Names(e);
  }

  /** Fields named like `a`'s followed by fields covering the names of `b` that
      `a` lacks: every name of `b` occurs. */
  lemma ConcatCovers(m: seq<StructField>, e: seq<StructField>, af: seq<StructField>, bf: seq<StructField>)
    requires |m| == |af| && forall i :: 0 <= i < |af| ==> m[i].name == af[i].name
    requires forall x :: x in Names(bf) && x !in Names(af) ==> x in Names(e)
    ensures forall x :: x in Names(bf) ==> x in Names(m + e)
  {
    var fs := m + e;
    forall x | x in Names(bf) ensures x in Names(fs) {
      if x in Names(af) {
        var k :| 0 <= k < |af| && Names(af)[k] == x;
        assert Names(fs)[k] == x;
      } else {
        var k :| 0 <= k < |e| && Names(e)[k] == x;
        assert Names(fs)[|af| + k] == x;
      }
    }
  }

  /** Fields named like `a`'s, followed by the fields appended for `b`: every
      later field is new, named once, typed by `b`'s last field of its name, and
      every name of `b` occurs. */
  lemma AppendedLayout(m: seq<StructField>, af: seq<StructField>, bf: seq<StructField>)
    requires |m| == |af| && forall i :: 0 <= i < |af| ==> m[i].name == af[i].name
    ensures var fs := m + Appended(bf, Missing(Dedup(Names(bf)), Names(af)));
            && (forall i :: |af| <= i < |fs| ==>
                  fs[i].name !in Names(af) && LastType(bf, fs[i].name) == Some(fs[i].dataType))
            && Distinct(Names(fs)[|af|..])
            && (forall x :: x in Names(bf) ==> x in Names(fs))
  {
    AppendedFields(bf, Names(af));
    var e := Appended(bf, Missing(Dedup(Names(bf)), Names(af)));
    ConcatSuffix(m, e, Names(af), bf);
    ConcatCovers(m, e, af, bf);
  }

  /** After `a`'s fields, merging two structs appends each name only `b` has, once,
      with the type of `b`'s last field of that name; so every name of `b` is a
      name of the result. */
  lemma StructMergeSuffix(af: seq<StructField>, bf: seq<StructField>)
    requires MergeType(Struct(af), Struct(bf)).Ok?
    ensures var fs := MergeType(Struct(af), Struct(bf)).value.fields;
            && |fs| >= |af|
            && (forall i :: |af| <= i < |fs| ==>
                  fs[i].name !in Names(af) && LastType(bf, fs[i].name) == Some(fs[i].dataType))
            && Distinct(Names(fs)[|af|..])
            && (forall x :: x in Names(bf) ==> x in Names(fs))
  {
    MergeStructs(af, bf);
    AppendedLayout(MergeFields(af, bf).value, af, bf);
  }

  /** Every string of `r` occurs in `s`, and `r` lists them in the order of their
      first occurrence in `s`. */
  predicate InOrderOf(r: seq<string>, s: seq<string>) {
    && (forall x :: x in r ==> x in s)
    && forall i, j :: 0 <= i < j < |r| ==> FirstIndex(s, r[i]) < FirstIndex(s, r[j])
  }

  /** Putting a string first that comes before all others keeps the order. */
  lemma ConsInOrder(x: string, rest: seq<string>, s: seq<string>)
    requires x in s && InOrderOf(rest, s)
    requires forall y :: y in rest ==> FirstIndex(s, x) < FirstIndex(s, y)
    ensures InOrderOf([x] + rest, s)
  {
    var r := [x] + rest;
    assert forall y :: y in r ==> y in s;
    assert forall j :: 0 < j < |r| ==> r[j] == rest[j - 1];
  }

  /** Dropping known names keeps the others in their order. */
  lemma {:induction false} MissingKeepsOrder(order: seq<string>, known: seq<string>, s: seq<string>)
    requires InOrderOf(order, s)
    ensures InOrderOf(Missing(order, known), s)
  {
    if |order| > 0 {
      var tail := order[1..];
      assert forall x :: x in tail ==> x in order;
      assert forall i, j :: 0 <= i < j < |tail| ==> tail[i] == order[i + 1] && tail[j] == order[j + 1];
      MissingKeepsOrder(tail, known, s);
      if order[0] !in known {
        var rest := Missing(tail, known);
        forall y | y in rest ensures FirstIndex(s, order[0]) < FirstIndex(s, y) {
          var k :| 0 <= k < |tail| && tail[k] == y;
          assert order[k + 1] == y;
        }
        ConsInOrder(order[0], rest, s);
      }
    }
  }

  /** The appended part of a concatenation keeps its order. */
  lemma ConcatOrder(m: seq<StructField>, e: seq<StructField>, s: seq<string>)
    requires forall i :: 0 <= i < |e| ==> e[i].name in s
    requires forall i, j :: 0 <= i < j < |e| ==> FirstIndex(s, e[i].name) < FirstIndex(s, e[j].name)
    ensures var fs := m + e;
            forall i, j :: |m| <= i < j < |fs| ==>
              fs[i].name in s && fs[j].name in s && FirstIndex(s, fs[i].name) < FirstIndex(s, fs[j].name)
  {
    var fs := m + e;
    assert forall i :: |m| <= i < |fs| ==> fs[i] == e[i - |m|];
  }

  /** The names only `b` has are appended in the order of their first occurrence
      in `b`. */
  lemma StructMergeOrder(af: seq<StructField>, bf: seq<StructField>)
    requires MergeType(Struct(af), Struct(bf)).Ok?
    ensures var fs := MergeType(Struct(af), Struct(bf)).value.fields;
            forall i, j :: |af| <= i < j < |fs| ==>
              fs[i].name in Names(bf) && fs[j].name in Names(bf)
              && FirstIndex(Names(bf), fs[i].name) < FirstIndex(Names(bf), fs[j].name)
  {
    MergeStructs(af, bf);
    var missing := Missing(Dedup(Names(bf)), Names(af));
    assert InOrderOf(Dedup(Names(bf)), Names(bf));
    MissingKeepsOrder(Dedup(Names(bf)), Names(af), Names(bf));
    AppendedFields(bf, Names(af));
    var e := Appended(bf, missing);
    assert forall i :: 0 <= i < |e| ==> e[i].name == missing[i] && e[i].name in Names(bf);
    ConcatOrder(MergeFields(af, bf).value, e, Names(bf));
  }

  /** Arrays merge element-wise. */
  lemma ArrayMerge(x: DataType, y: DataType)
    ensures var r := MergeType(Array(x), Array(y));
            && (r.Ok? <==> MergeType(x, y).Ok?)
            && (r.Ok? ==> r.value == Array(MergeType(x, y).value))
  {
    assert ClassOf(Array(x)) == ClassOf(Array(y));
    assert MergeType(Array(x), Array(y)) == MergeArrays(x, y);
  }

  /** Maps merge key-wise and value-wise independently. */
  lemma MapMerge(k1: DataType, v1: DataType, k2: DataType, v2: DataType)
    ensures var r := MergeType(Map(k1, v1), Map(k2, v2));
            && (r.Ok? <==> MergeType(k1, k2).Ok? && MergeType(v1, v2).Ok?)
            && (r.Ok? ==> r.value == Map(MergeType(k1, k2).value, MergeType(v1, v2).value))
  {
    assert ClassOf(Map(k1, v1)) == ClassOf(Map(k2, v2));
    assert MergeType(Map(k1, v1), Map(k2, v2)) == MergeMaps(k1, v1, k2, v2);
  }

  /** Two types of the same atomic class merge to the left one, so merging is
      not commutative: decimals keep the left precision and scale. */
  lemma NotCommutativeExample()
    ensures MergeType(Decimal(10, 2), Decimal(38, 0)) == Ok(Decimal(10, 2))
    ensures MergeType(Decimal(38, 0), Decimal(10, 2)) == Ok(Decimal(38, 0))
  {
  }

  /** Struct fields have distinct names and are nullable, all the way down. */
  predicate Canonical(t: DataType) {
    match t
    case Struct(fs) =>
      && Distinct(Names(fs))
      && forall i :: 0 <= i < |fs| ==> fs[i].nullable && Canonical(fs[i].dataType)
    case Array(e) => Canonical(e)
    case Map(k, v) => Canonical(k) && Canonical(v)
    case _ => true
  }

  /** Merging a canonical type with itself gives it back. */
  lemma {:induction false} MergeIdempotent(t: DataType)
    requires Canonical(t)
    ensures MergeType(t, t) == Ok(t)
    decreases t
  {
    match t
    case Struct(fs) =>
      forall i | 0 <= i < |fs| ensures LastType(fs, fs[i].name) == Some(fs[i].dataType) {
        DistinctLastType(fs, i);
      }
      MergeFieldsIdempotent(fs, fs);
      MergeStructSelf(fs);
    case Array(el) => MergeIdempotent(el);
    case Map(k, v) =>
      MergeIdempotent(k);
      MergeIdempotent(v);
    case _ =>
  }

  /** With distinct names, the last field of a name is its only one. */
  lemma DistinctLastType(fs: seq<StructField>, i: nat)
    requires i < |fs| && Distinct(Names(fs))
    ensures LastType(fs, fs[i].name) == Some(fs[i].dataType)
  {
    var n := fs[i].name;
    var x := LastType(fs, n);
    var j :| 0 <= j < |fs| && fs[j].name == n && fs[j].dataType == x.value
             && forall k :: j < k < |fs| ==> fs[k].name != n;
    assert Names(fs)[i] == n && Names(fs)[j] == n;
    assert !(j < i);
    assert j == i;
  }

  /** A struct whose fields merge to themselves merges to itself: no name of the
      right is missing on the left. */
  lemma MergeStructSelf(fs: seq<StructField>)
    requires MergeFields(fs, fs) == Ok(fs)
    ensures MergeType(Struct(fs), Struct(fs)) == Ok(Struct(fs))
  {
    MergeStructs(fs, fs);
    NoneMissing(Dedup(Names(fs)), Names(fs));
    assert fs + Appended(fs, []) == fs;
  }

  lemma {:induction false} MergeFieldsIdempotent(af: seq<StructField>, bf: seq<StructField>)
    requires forall i :: 0 <= i < |af| ==> af[i].nullable && Canonical(af[i].dataType)
    requires forall i :: 0 <= i < |af| ==> LastType(bf, af[i].name) == Some(af[i].dataType)
    ensures MergeFields(af, bf) == Ok(af)
    decreases af
  {
    if |af| > 0 {
      assert af[0] in af;
      MergeIdempotent(af[0].dataType);
      assert forall i :: 1 <= i < |af| ==> af[1..][i - 1] == af[i];
      MergeFieldsIdempotent(af[1..], bf);
      assert af == [af[0]] + af[1..];
    }
  }

  /** Without canonical form merging with itself is not the identity: a
      non-nullable field comes back nullable ... */
  lemma NonNullableFieldExample()
    ensures var t := Struct([StructField("A", Long, false)]);
            MergeType(t, t) == Ok(Struct([StructField("A", Long, true)]))
  {
    var fs := [StructField("A", Long, false)];
    assert LastType(fs, "A") == Some(Long);
    assert MergeFields(fs[1..], fs) == Ok([]);
    MergeStructs(fs, fs);
    NoneMissing(Dedup(Names(fs)), Names(fs));
    assert [StructField("A", Long, true)] + Appended(fs, []) == [StructField("A", Long, true)];
  }

  /** ... and two fields of one name, the last of which every earlier one is merged
      with, may conflict. */
  lemma DuplicateNameExample()
    ensures var t := Struct([StructField("A", Long, true), StructField("A", String, true)]);
            MergeType(t, t) == Err(MergeConflict(LongType, StringType))
  {
    var fs := [StructField("A", Long, true), StructField("A", String, true)];
    assert LastType(fs, "A") == Some(String);
  }

  // ---------------------------------------------------------------------------
  // Grouping of a fold

  /** Merging three types grouped to the left, `(a, b)` first, as a fold over
      rows does. */
  function MergeLeft(a: DataType, b: DataType, c: DataType): Result<DataType, Error> {
    var ab :- MergeType(a, b);
    MergeType(ab, c)
  }

  /** Merging three types grouped to the right, `(b, c)` first. */
  function MergeRight(a: DataType, b: DataType, c: DataType): Result<DataType, Error> {
    var bc :- MergeType(b, c);
    MergeType(a, bc)
  }

  /** No struct occurs anywhere in the type. */
  predicate StructFree(t: DataType) {
    match t
    case Struct(_) => false
    case Array(e) => StructFree(e)
    case Map(k, v) => StructFree(k) && StructFree(v)
    case _ => true
  }

  /** Both groupings fail together, and otherwise give the same type. */
  predicate Associates(a: DataType, b: DataType, c: DataType) {
    && (MergeLeft(a, b, c).Ok? <==> MergeRight(a, b, c).Ok?)
    && (MergeLeft(a, b, c).Ok? ==> MergeLeft(a, b, c).value == MergeRight(a, b, c).value)
  }

  /** Null is an identity on either side, so a Null operand makes the grouping
      irrelevant. */
  lemma NullAssociates(a: DataType, b: DataType, c: DataType)
    requires a.Null? || b.Null? || c.Null?
    ensures Associates(a, b, c)
  {
    if a.Null? {
      NullFirstAssociates(a, b, c);
    } else if b.Null? {
      NullMiddleAssociates(a, b, c);
    } else {
      NullLastAssociates(a, b, c);
    }
  }

  /** A Null left operand: both groupings are the merge of the other two. */
  lemma NullFirstAssociates(a: DataType, b: DataType, c: DataType)
    requires a.Null?
    ensures Associates(a, b, c)
  {
    assert MergeLeft(a, b, c) == MergeType(b, c);
    if MergeType(b, c).Ok? {
      assert MergeRight(a, b, c) == MergeType(a, MergeType(b, c).value);
    }
  }

  /** A Null middle operand: both groupings are the merge of the outer two. */
  lemma NullMiddleAssociates(a: DataType, b: DataType, c: DataType)
    requires b.Null?
    ensures Associates(a, b, c)
  {
    assert MergeLeft(a, b, c) == MergeType(a, c);
    assert MergeRight(a, b, c) == MergeType(a, c);
  }

  /** A Null right operand: both groupings are the merge of the other two. */
  lemma NullLastAssociates(a: DataType, b: DataType, c: DataType)
    requires c.Null?
    ensures Associates(a, b, c)
  {
    assert MergeRight(a, b, c) == MergeType(a, b);
    if MergeType(a, b).Ok? {
      assert MergeLeft(a, b, c) == MergeType(MergeType(a, b).value, c);
    }
  }

  /** The left operand's class differs from the middle one's: both groupings fail. */
  lemma LeftMismatchFails(a: DataType, b: DataType, c: DataType)
    requires !a.Null? && !b.Null? && !c.Null? && ClassOf(a) != ClassOf(b)
    ensures MergeLeft(a, b, c).Err? && MergeRight(a, b, c).Err?
  {
    LeftMismatchLeft(a, b, c);
    LeftMismatchRight(a, b, c);
  }

  /** Both groupings failing, they associate. */
  lemma BothFailAssociate(a: DataType, b: DataType, c: DataType)
    requires MergeLeft(a, b, c).Err? && MergeRight(a, b, c).Err?
    ensures Associates(a, b, c)
  {
  }

  /** Grouped to the left, the first merge already conflicts. */
  lemma LeftMismatchLeft(a: DataType, b: DataType, c: DataType)
    requires !a.Null? && !b.Null? && !c.Null? && ClassOf(a) != ClassOf(b)
    ensures MergeLeft(a, b, c).Err?
  {
    assert MergeType(a, b).Err?;
  }

  /** Grouped to the right, the middle merge keeps `b`'s class, which conflicts
      with `a`'s. */
  lemma LeftMismatchRight(a: DataType, b: DataType, c: DataType)
    requires !a.Null? && !b.Null? && !c.Null? && ClassOf(a) != ClassOf(b)
    ensures MergeRight(a, b, c).Err?
  {
    if MergeType(b, c).Ok? {
      var bc := MergeType(b, c).value;
      MergedKeepsClass(b, c);
      assert MergeRight(a, b, c) == MergeType(a, bc);
    }
  }

  /** A successful merge with a non-Null left operand is non-Null and keeps
      that operand's class. */
  lemma MergedKeepsClass(a: DataType, b: DataType)
    requires !a.Null? && MergeType(a, b).Ok?
    ensures !MergeType(a, b).value.Null? && ClassOf(MergeType(a, b).value) == ClassOf(a)
  {
  }

  /** The right operand's class differs from the middle one's: both groupings fail. */
  lemma RightMismatchFails(a: DataType, b: DataType, c: DataType)
    requires !a.Null? && !b.Null? && !c.Null? && ClassOf(a) == ClassOf(b) && ClassOf(b) != ClassOf(c)
    ensures MergeLeft(a, b, c).Err? && MergeRight(a, b, c).Err?
  {
    RightMismatchLeft(a, b, c);
    RightMismatchRight(a, b, c);
  }

  /** Grouped to the left, the first merge keeps `a`'s class, which conflicts
      with `c`'s. */
  lemma RightMismatchLeft(a: DataType, b: DataType, c: DataType)
    requires !a.Null? && !b.Null? && !c.Null? && ClassOf(a) == ClassOf(b) && ClassOf(b) != ClassOf(c)
    ensures MergeLeft(a, b, c).Err?
  {
    if MergeType(a, b).Ok? {
      var ab := MergeType(a, b).value;
      MergedKeepsClass(a, b);
      assert MergeLeft(a, b, c) == MergeType(ab, c);
    }
  }

  /** Grouped to the right, the first merge already conflicts. */
  lemma RightMismatchRight(a: DataType, b: DataType, c: DataType)
    requires !a.Null? && !b.Null? && !c.Null? && ClassOf(b) != ClassOf(c)
    ensures MergeRight(a, b, c).Err?
  {
    assert MergeType(b, c).Err?;
  }

  /** Three atomic types of one class merge to the left one either way. */
  lemma AtomicAssociates(a: DataType, b: DataType, c: DataType)
    requires IsAtomic(a) && ClassOf(a) == ClassOf(b) && ClassOf(b) == ClassOf(c)
    ensures MergeLeft(a, b, c) == Ok(a) && MergeRight(a, b, c) == Ok(a)
    ensures Associates(a, b, c)
  {
    assert IsAtomic(b);
  }

  /** Arrays associate when their elements do. */
  lemma ArrayAssociates(x: DataType, y: DataType, z: DataType)
    requires Associates(x, y, z)
    ensures Associates(Array(x), Array(y), Array(z))
  {
    ArrayMergeLeft(x, y, z);
    ArrayMergeRight(x, y, z);
  }

  /** Grouped to the left, arrays merge element-wise. */
  lemma ArrayMergeLeft(x: DataType, y: DataType, z: DataType)
    ensures var r := MergeLeft(Array(x), Array(y), Array(z));
            && (r.Ok? <==> MergeLeft(x, y, z).Ok?)
            && (r.Ok? ==> r.value == Array(MergeLeft(x, y, z).value))
  {
    ArrayMerge(x, y);
    if MergeType(x, y).Ok? {
      var e := MergeType(x, y).value;
      ArrayMerge(e, z);
      LeftGroupFrom(Array(x), Array(y), Array(z), Array(e));
      assert MergeLeft(x, y, z) == MergeType(e, z);
    }
  }

  /** Grouped to the right, arrays merge element-wise. */
  lemma ArrayMergeRight(x: DataType, y: DataType, z: DataType)
    ensures var r := MergeRight(Array(x), Array(y), Array(z));
            && (r.Ok? <==> MergeRight(x, y, z).Ok?)
            && (r.Ok? ==> r.value == Array(MergeRight(x, y, z).value))
  {
    ArrayMerge(y, z);
    if MergeType(y, z).Ok? {
      var e := MergeType(y, z).value;
      ArrayMerge(x, e);
      RightGroupFrom(Array(x), Array(y), Array(z), Array(e));
      assert MergeRight(x, y, z) == MergeType(x, e);
    }
  }

  /** Grouped to the left, maps merge key-wise and value-wise. */
  lemma MapMergeLeft(k1: DataType, v1: DataType, k2: DataType, v2: DataType, k3: DataType, v3: DataType)
    ensures var r := MergeLeft(Map(k1, v1), Map(k2, v2), Map(k3, v3));
            && (r.Ok? <==> MergeLeft(k1, k2, k3).Ok? && MergeLeft(v1, v2, v3).Ok?)
            && (r.Ok? ==> r.value == Map(MergeLeft(k1, k2, k3).value, MergeLeft(v1, v2, v3).value))
  {
    MapMerge(k1, v1, k2, v2);
    if MergeType(k1, k2).Ok? && MergeType(v1, v2).Ok? {
      var k, v := MergeType(k1, k2).value, MergeType(v1, v2).value;
      MapMerge(k, v, k3, v3);
      LeftGroupFrom(Map(k1, v1), Map(k2, v2), Map(k3, v3), Map(k, v));
      LeftGroupFrom(k1, k2, k3, k);
      LeftGroupFrom(v1, v2, v3, v);
    } else {
      LeftGroupFails(Map(k1, v1), Map(k2, v2), Map(k3, v3));
      if MergeType(k1, k2).Err? {
        LeftGroupFails(k1, k2, k3);
      } else {
        LeftGroupFails(v1, v2, v3);
      }
    }
  }

  /** When the first merge fails, the left grouping fails. */
  lemma LeftGroupFails(a: DataType, b: DataType, c: DataType)
    requires MergeType(a, b).Err?
    ensures MergeLeft(a, b, c).Err?
  {
  }

  /** When the second merge fails, the right grouping fails. */
  lemma RightGroupFails(a: DataType, b: DataType, c: DataType)
    requires MergeType(b, c).Err?
    ensures MergeRight(a, b, c).Err?
  {
  }

  /** Once the first merge gives `ab`, the left grouping is the merge of `ab`
      with `c`. */
  lemma LeftGroupFrom(a: DataType, b: DataType, c: DataType, ab: DataType)
    requires MergeType(a, b) == Ok(ab)
    ensures MergeLeft(a, b, c) == MergeType(ab, c)
  {
  }

  /** Once the second merge gives `bc`, the right grouping is the merge of `a`
      with `bc`. */
  lemma RightGroupFrom(a: DataType, b: DataType, c: DataType, bc: DataType)
    requires MergeType(b, c) == Ok(bc)
    ensures MergeRight(a, b, c) == MergeType(a, bc)
  {
  }

  /** Grouped to the right, maps merge key-wise and value-wise. */
  lemma MapMergeRight(k1: DataType, v1: DataType, k2: DataType, v2: DataType, k3: DataType, v3: DataType)
    ensures var r := MergeRight(Map(k1, v1), Map(k2, v2), Map(k3, v3));
            && (r.Ok? <==> MergeRight(k1, k2, k3).Ok? && MergeRight(v1, v2, v3).Ok?)
            && (r.Ok? ==> r.value == Map(MergeRight(k1, k2, k3).value, MergeRight(v1, v2, v3).value))
  {
    MapMerge(k2, v2, k3, v3);
    if MergeType(k2, k3).Ok? && MergeType(v2, v3).Ok? {
      var k, v := MergeType(k2, k3).value, MergeType(v2, v3).value;
      MapMerge(k1, v1, k, v);
      RightGroupFrom(Map(k1, v1), Map(k2, v2), Map(k3, v3), Map(k, v));
      RightGroupFrom(k1, k2, k3, k);
      RightGroupFrom(v1, v2, v3, v);
    } else {
      RightGroupFails(Map(k1, v1), Map(k2, v2), Map(k3, v3));
      if MergeType(k2, k3).Err? {
        RightGroupFails(k1, k2, k3);
      } else {
        RightGroupFails(v1, v2, v3);
      }
    }
  }

  /** Without structs the grouping of a fold does not matter: both groupings
      fail together, and otherwise give the same type. */
  lemma {:induction false} MergeAssociativeWithoutStructs(a: DataType, b: DataType, c: DataType)
    requires StructFree(a) && StructFree(b) && StructFree(c)
    ensures Associates(a, b, c)
    decreases a
  {
    if a.Null? || b.Null? || c.Null? {
      NullAssociates(a, b, c);
    } else if ClassOf(a) != ClassOf(b) {
      LeftMismatchFails(a, b, c);
      BothFailAssociate(a, b, c);
    } else if ClassOf(b) != ClassOf(c) {
      RightMismatchFails(a, b, c);
      BothFailAssociate(a, b, c);
    } else {
      SameClassShape(a, b);
      SameClassShape(b, c);
      if a.Array? {
        MergeAssociativeWithoutStructs(a.element, b.element, c.element);
        ArrayAssociates(a.element, b.element, c.element);
      } else if a.Map? {
        MergeAssociativeWithoutStructs(a.key, b.key, c.key);
        MergeAssociativeWithoutStructs(a.value, b.value, c.value);
        MapAssociates(a.key, a.value, b.key, b.value, c.key, c.value);
      } else {
        AtomicAssociates(a, b, c);
      }
    }
  }

  /** Maps associate when their keys and their values do. */
  lemma MapAssociates(k1: DataType, v1: DataType, k2: DataType, v2: DataType, k3: DataType, v3: DataType)
    requires Associates(k1, k2, k3) && Associates(v1, v2, v3)
    ensures Associates(Map(k1, v1), Map(k2, v2), Map(k3, v3))
  {
    MapMergeLeft(k1, v1, k2, v2, k3, v3);
    MapMergeRight(k1, v1, k2, v2, k3, v3);
  }

  /** Two types of one class have the same shape. */
  lemma SameClassShape(a: DataType, b: DataType)
    requires ClassOf(a) == ClassOf(b)
    ensures a.Array? <==> b.Array?
    ensures a.Map? <==> b.Map?
    ensures a.Struct? <==> b.Struct?
    ensures IsAtomic(a) <==> IsAtomic(b)
  {
  }

  /** With a duplicated field name the grouping matters: `b` conflicts with `c`,
      but merged into an empty struct first, `b` keeps only its last field, which
      agrees with `c`. */
  lemma NotAssociativeExample()
    ensures var a := Struct([]);
            var b := Struct([StructField("X", String, true), StructField("X", Long, true)]);
            var c := Struct([StructField("X", Long, true)]);
            && MergeLeft(a, b, c) == Ok(c)
            && MergeRight(a, b, c) == Err(MergeConflict(StringType, LongType))
  {
    var a := Struct([]);
    var bf := [StructField("X", String, true), StructField("X", Long, true)];
    var c := Struct([StructField("X", Long, true)]);
    DuplicatesConflict(bf, c.fields);
    EmptyAbsorbsDuplicates(bf);
    SelfMergeSingleField(c);
    assert MergeLeft(a, Struct(bf), c) == MergeType(c, c);
  }

  /** A one-field canonical struct merges with itself to itself. */
  lemma SelfMergeSingleField(c: DataType)
    requires c == Struct([StructField("X", Long, true)])
    ensures MergeType(c, c) == Ok(c)
  {
    MergeIdempotent(c);
  }

  /** The first field's String type conflicts with the other struct's Long. */
  lemma DuplicatesConflict(bf: seq<StructField>, cf: seq<StructField>)
    requires bf == [StructField("X", String, true), StructField("X", Long, true)]
    requires cf == [StructField("X", Long, true)]
    ensures MergeType(Struct(bf), Struct(cf)) == Err(MergeConflict(StringType, LongType))
  {
    assert LastType(cf, "X") == Some(Long);
    assert MergeType(String, Long) == Err(MergeConflict(StringType, LongType));
    MergeStructs(bf, cf);
  }

  /** Merged into an empty struct, the duplicated name keeps its last field only. */
  lemma EmptyAbsorbsDuplicates(bf: seq<StructField>)
    requires bf == [StructField("X", String, true), StructField("X", Long, true)]
    ensures MergeType(Struct([]), Struct(bf)) == Ok(Struct([StructField("X", Long, true)]))
  {
    EmptyStructMerge(bf);
    DuplicateNamesAppended(bf);
  }

  /** Merged into an empty struct, a struct's fields are all appended. */
  lemma EmptyStructMerge(bf: seq<StructField>)
    ensures MergeType(Struct([]), Struct(bf)) == Ok(Struct(Appended(bf, Missing(Dedup(Names(bf)), []))))
  {
    assert ClassOf(Struct([])) == ClassOf(Struct(bf));
    assert MergeType(Struct([]), Struct(bf)) == MergeStructFields([], bf);
    assert MergeFields([], bf) == Ok([]);
    assert Names([]) == [];
    var e := Appended(bf, Missing(Dedup(Names(bf)), []));
    assert [] + e == e;
  }

  /** The duplicated name is appended once, with its last field's type. */
  lemma DuplicateNamesAppended(bf: seq<StructField>)
    requires bf == [StructField("X", String, true), StructField("X", Long, true)]
    ensures Appended(bf, Missing(Dedup(Names(bf)), [])) == [StructField("X", Long, true)]
  {
    DuplicateNamesDedup(bf);
    assert Missing(["X"], []) == ["X"];
  }

  /** The duplicated name occurs once among the keys, with its last type. */
  lemma DuplicateNamesDedup(bf: seq<StructField>)
    requires bf == [StructField("X", String, true), StructField("X", Long, true)]
    ensures Dedup(Names(bf)) == ["X"] && LastType(bf, "X") == Some(Long)
  {
    assert Names(bf) == ["X", "X"];
    assert Dedup(["X"]) == ["X"];
  }
}
