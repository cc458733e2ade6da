/** `_python_type_to_snow_type`: the data type of a Python type hint, and whether
    the hint allows None. Hints are classes of the literal table, the container
    classes and their subscripted `typing` forms, `Optional[X]`, the Variant and
    Geography markers, and strings naming any of these. */
module TypeHints {
  import opened Results
  import opened DataTypes
  import opened Inference

  /** `typing.get_origin` of a subscripted hint: `typing.Union`, `list`, `tuple`,
      `dict`, or some other generic class. */
  datatype Origin = UnionOrigin | ListOrigin | TupleOrigin | DictOrigin | OtherOrigin(name: string)

  /** A type hint as the conversion sees it. */
  datatype Hint =
      /** A class of the literal table: `type(None)`, `bool`, `int`, …, `decimal.Decimal`. */
    | Builtin(pyType: PyType)
      /** An unsubscripted class or `typing` alias: `list` and `typing.List` are
          `Bare(ListOrigin)`, `typing.Union` is `Bare(UnionOrigin)`, any other
          class is `Bare(OtherOrigin(name))`. */
    | Bare(origin: Origin)
      /** `origin[args]`, with `typing.get_args` as the arguments. */
    | Subscripted(origin: Origin, args: seq<Hint>)
    | VariantHint
    | GeographyHint
      /** A string, to be resolved to the object it names. */
    | Text(text: string)

  /** `Optional[X]`, that is `Union[X, None]`: two arguments, the second `NoneType`. */
  predicate IsOptional(h: Hint) {
    h.Subscripted? && h.origin.UnionOrigin? && |h.args| == 2 && h.args[1] == Builtin(TNone)
  }

  /** `list`, `tuple`, `typing.List` and `typing.Tuple` and their subscriptions. */
  predicate IsListLike(o: Origin) {
    o.ListOrigin? || o.TupleOrigin?
  }

  /** The error kinds a hint conversion raises. */
  predicate IsHintError(e: Error) {
    e == InvalidTypeHint || e == MissingTypeArgument || e.UnresolvedName? || e == RecursionLimit
  }

  /** The four names resolved without `eval`. */
  predicate IsSpecialName(s: string) {
    s == "Decimal" || s == "date" || s == "time" || s == "datetime"
  }

  /** `_python_type_str_to_object`: "Decimal", "date", "time" and "datetime" name
      the classes of the `decimal` and `datetime` modules; every other string is
      evaluated by `eval` with no namespace, so in this module's own globals (its
      imports and the `NoneType` alias), given here as `env`, where `None` stands
      for a string `eval` raises on. */
  function ResolveTypeString(s: string, env: string -> Option<Hint>): (r: Option<Hint>)
    ensures s == "Decimal" ==> r == Some(Builtin(TDecimal))
    ensures s == "date" ==> r == Some(Builtin(TDate))
    ensures s == "time" ==> r == Some(Builtin(TTime))
    ensures s == "datetime" ==> r == Some(Builtin(TDateTime))
    ensures !IsSpecialName(s) ==> r == env(s)
  {
    if s == "Decimal" then Some(Builtin(TDecimal))
    else if s == "date" then Some(Builtin(TDate))
    else if s == "time" then Some(Builtin(TTime))
    else if s == "datetime" then Some(Builtin(TDateTime))
    else env(s)
  }

  /** `_python_type_to_snow_type`. A string hint is resolved first, at most `depth`
      times along any path; Python's recursion limit is this bound. */
  function PythonTypeToSnowType(h: Hint, env: string -> Option<Hint>, depth: nat): (r: Result<(DataType, bool), Error>)
    ensures h.Text? && depth == 0 ==> r == Err(RecursionLimit)
    ensures h.Text? && depth > 0 && ResolveTypeString(h.text, env).None? ==> r == Err(UnresolvedName(h.text))
    ensures r.Err? ==> IsHintError(r.error)
    ensures r.Ok? && !h.Text? ==> (r.value.1 <==> IsOptional(h))
    decreases depth, h, 1
  {
    if h.Text? then
      if depth == 0 then Err(RecursionLimit)
      else
        match ResolveTypeString(h.text, env)
        case None => Err(UnresolvedName(h.text))
        case Some(t) => ConvertTypeObject(t, env, depth - 1)
    else ConvertTypeObject(h, env, depth)
  }

  /** The conversion of a hint once strings are resolved. A string that a string
      resolves to is not resolved again: it is no type. Nested hints lose their
      nullability: only the outermost `Optional` makes the result nullable. */
  function ConvertTypeObject(h: Hint, env: string -> Option<Hint>, depth: nat): (r: Result<(DataType, bool), Error>)
    ensures r.Err? ==> IsHintError(r.error)
    ensures r.Ok? ==> (r.value.1 <==> IsOptional(h))
    ensures h.Builtin? ==> r.Ok? && ClassOf(r.value.0) == TypeMapping(h.pyType)
    ensures h == Builtin(TDecimal) ==> r == Ok((Decimal(38, 18), false))
    ensures h.Bare? && IsListLike(h.origin) ==> r == Ok((Array(String), false))
    ensures h == Bare(DictOrigin) ==> r == Ok((Map(String, String), false))
    ensures h.Subscripted? && IsListLike(h.origin) && |h.args| == 0 ==> r == Ok((Array(String), false))
    ensures h.Subscripted? && h.origin.DictOrigin? && |h.args| == 0 ==> r == Ok((Map(String, String), false))
    ensures h.VariantHint? ==> r == Ok((Variant, false))
    ensures h.GeographyHint? ==> r == Ok((Geography, false))
    ensures h.Subscripted? && IsListLike(h.origin) && r.Ok? ==> r.value.0.Array?
    ensures h.Subscripted? && h.origin.DictOrigin? && r.Ok? ==> r.value.0.Map? && |h.args| != 1
    ensures h.Text? || (h.Bare? && !(IsListLike(h.origin) || h.origin.DictOrigin?)) ==> r == Err(InvalidTypeHint)
    ensures h.Subscripted? && !(IsListLike(h.origin) || h.origin.DictOrigin? || IsOptional(h)) ==> r == Err(InvalidTypeHint)
    decreases depth, h, 0
  {
    match h
    case Builtin(p) =>
      if p == TDecimal then Ok((Decimal(38, 18), false)) else Ok((Unit(TypeMapping(p)), false))
    case Bare(o) =>
      if IsListLike(o) then Ok((Array(String), false))
      else if o.DictOrigin? then Ok((Map(String, String), false))
      else Err(InvalidTypeHint)
    case Subscripted(o, args) =>
      if IsOptional(h) then
        assert args[0] in args;
        var x :- PythonTypeToSnowType(args[0], env, depth);
        Ok((x.0, true))
      else if IsListLike(o) then
        if |args| == 0 then Ok((Array(String), false))
        else
          assert args[0] in args;
          var x :- PythonTypeToSnowType(args[0], env, depth);
          Ok((Array(x.0), false))
      else if o.DictOrigin? then
        if |args| == 0 then Ok((Map(String, String), false))
        else
          assert args[0] in args;
          var k :- PythonTypeToSnowType(args[0], env, depth);
          if |args| < 2 then Err(MissingTypeArgument)
          else
            assert args[1] in args;
            var v :- PythonTypeToSnowType(args[1], env, depth);
            Ok((Map(k.0, v.0), false))
      else Err(InvalidTypeHint)
    case VariantHint => Ok((Variant, false))
    case GeographyHint => Ok((Geography, false))
    case Text(_) => Err(InvalidTypeHint)
  }

  // ---------------------------------------------------------------------------
  // Properties

  /** A class of the literal table converts to the data type inference gives its
      values, decimals included, and is not nullable. */
  lemma HintAgreesWithInference(v: PyValue, sizes: CSizes, env: string -> Option<Hint>, depth: nat)
    requires ScalarType(v).Some?
    ensures PythonTypeToSnowType(Builtin(ScalarType(v).value), env, depth) == Ok((InferType(v, sizes).value, false))
  {
  }

  /** `Optional[X]` converts like `X`, made nullable; it fails exactly when `X` does. */
  lemma OptionalAddsNullability(x: Hint, env: string -> Option<Hint>, depth: nat)
    ensures var o := PythonTypeToSnowType(Subscripted(UnionOrigin, [x, Builtin(TNone)]), env, depth);
            var r := PythonTypeToSnowType(x, env, depth);
            && (o.Ok? <==> r.Ok?)
            && (o.Ok? ==> o.value == (r.value.0, true))
            && (o.Err? ==> o.error == r.error)
  {
    assert IsOptional(Subscripted(UnionOrigin, [x, Builtin(TNone)]));
  }

  /** Only `Union[X, None]` with None second is accepted: `Union[None, X]` is not. */
  lemma NoneFirstUnionRejected(x: Hint, env: string -> Option<Hint>, depth: nat)
    requires x != Builtin(TNone)
    ensures PythonTypeToSnowType(Subscripted(UnionOrigin, [Builtin(TNone), x]), env, depth) == Err(InvalidTypeHint)
  {
  }

  /** A subscripted list or tuple is an array of its FIRST argument's type; further
      arguments are ignored, and so is the argument's own nullability. */
  lemma ListUsesFirstArgument(o: Origin, args: seq<Hint>, env: string -> Option<Hint>, depth: nat)
    requires IsListLike(o) && |args| > 0
    ensures var r := PythonTypeToSnowType(Subscripted(o, args), env, depth);
            var x := PythonTypeToSnowType(args[0], env, depth);
            && (r.Ok? <==> x.Ok?)
            && (r.Ok? ==> r.value == (Array(x.value.0), false))
            && (r.Err? ==> r.error == x.error)
  {
  }

  /** A dict subscripted with one argument fails once its key converts: the
      conversion reads a second argument that is not there. */
  lemma DictNeedsTwoArguments(k: Hint, env: string -> Option<Hint>, depth: nat)
    requires PythonTypeToSnowType(k, env, depth).Ok?
    ensures PythonTypeToSnowType(Subscripted(DictOrigin, [k]), env, depth) == Err(MissingTypeArgument)
  {
  }

  /** A dict subscripted with two or more arguments is a map of the first two. */
  lemma DictUsesFirstTwoArguments(args: seq<Hint>, env: string -> Option<Hint>, depth: nat)
    requires |args| >= 2
    ensures var r := PythonTypeToSnowType(Subscripted(DictOrigin, args), env, depth);
            var k := PythonTypeToSnowType(args[0], env, depth);
            var v := PythonTypeToSnowType(args[1], env, depth);
            && (r.Ok? <==> k.Ok? && v.Ok?)
            && (r.Ok? ==> r.value == (Map(k.value.0, v.value.0), false))
  {
    assert !IsOptional(Subscripted(DictOrigin, args));
  }

  /** Hints never produce a struct. */
  lemma {:induction false} NoStructFromHints(h: Hint, env: string -> Option<Hint>, depth: nat)
    requires PythonTypeToSnowType(h, env, depth).Ok?
    ensures !HasStruct(PythonTypeToSnowType(h, env, depth).value.0)
    decreases depth, h, 1
  {
    if h.Text? {
      NoStructFromTypeObject(ResolveTypeString(h.text, env).value, env, depth - 1);
    } else {
      NoStructFromTypeObject(h, env, depth);
    }
  }

  lemma {:induction false} NoStructFromTypeObject(h: Hint, env: string -> Option<Hint>, depth: nat)
    requires ConvertTypeObject(h, env, depth).Ok?
    ensures !HasStruct(ConvertTypeObject(h, env, depth).value.0)
    decreases depth, h, 0
  {
    if h.Subscripted? && |h.args| > 0 {
      assert h.args[0] in h.args;
      NoStructFromHints(h.args[0], env, depth);
      if |h.args| > 1 && h.origin.DictOrigin? {
        assert h.args[1] in h.args;
        NoStructFromHints(h.args[1], env, depth);
      }
    }
  }

  /** A larger bound on string resolution changes no result except the one the
      bound cut off. */
  lemma {:induction false} DepthMonotone(h: Hint, env: string -> Option<Hint>, depth: nat)
    requires PythonTypeToSnowType(h, env, depth) != Err(RecursionLimit)
    ensures PythonTypeToSnowType(h, env, depth + 1) == PythonTypeToSnowType(h, env, depth)
    decreases depth, h, 1
  {
    if h.Text? {
      var t := ResolveTypeString(h.text, env);
      if t.Some? {
        TypeObjectDepthMonotone(t.value, env, depth - 1);
      }
    } else {
      TypeObjectDepthMonotone(h, env, depth);
    }
  }

  lemma {:induction false} TypeObjectDepthMonotone(h: Hint, env: string -> Option<Hint>, depth: nat)
    requires ConvertTypeObject(h, env, depth) != Err(RecursionLimit)
    ensures ConvertTypeObject(h, env, depth + 1) == ConvertTypeObject(h, env, depth)
    decreases depth, h, 0
  {
    if h.Subscripted? && |h.args| > 0 {
      assert h.args[0] in h.args;
      if PythonTypeToSnowType(h.args[0], env, depth) != Err(RecursionLimit) {
        DepthMonotone(h.args[0], env, depth);
      }
      if |h.args| > 1 && h.origin.DictOrigin? {
        assert h.args[1] in h.args;
        if PythonTypeToSnowType(h.args[1], env, depth) != Err(RecursionLimit) {
          DepthMonotone(h.args[1], env, depth);
        }
      }
    }
  }

  /** The four special names resolve without consulting the module's globals. */
  lemma SpecialNamesIgnoreGlobals(s: string, env: string -> Option<Hint>, other: string -> Option<Hint>, depth: nat)
    requires IsSpecialName(s) && depth > 0
    ensures PythonTypeToSnowType(Text(s), env, depth) == PythonTypeToSnowType(Text(s), other, depth)
    ensures PythonTypeToSnowType(Text(s), env, depth).Ok?
  {
  }

  /** A string that names a type converts like that type, given one more step of
      resolution. */
  lemma StringNamesItsType(s: string, h: Hint, env: string -> Option<Hint>, depth: nat)
    requires !IsSpecialName(s) && env(s) == Some(h) && !h.Text?
    requires PythonTypeToSnowType(h, env, depth) != Err(RecursionLimit)
    ensures PythonTypeToSnowType(Text(s), env, depth + 1) == PythonTypeToSnowType(h, env, depth + 1)
  {
    DepthMonotone(h, env, depth);
  }
}
