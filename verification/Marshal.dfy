/**
  The marshalling macros of librpc/jrpc/include/libjrpc/marshall.h with the
  helpers of librpc/jrpc/marshall.c, as functions on a schema: the list of
  fields that JRPC_STRUCT, JRPC_ENUM and JRPC_UNION declare.
 */
module Marshal {
  import opened Wrappers
  import opened JsonRpc

  const ERR_FIELD_NOT_FOUND := -32099
  const ERR_TYPE_MISMATCH := -32098
  const ERR_INVALID_ENUM_STRING := -32097
  const ERR_INVALID_ENUM_VALUE := -32096

  datatype Result<+T> = Ok(value: T) | Err(code: int)

  // ---------------------------------------------------------------------
  // Schemas
  // ---------------------------------------------------------------------

  datatype IntType = Int32 | UInt32 | Int64 | UInt64

  datatype Enumerator = Enumerator(name: string, value: int)

  datatype Kind =
    | KInt(cast: IntType, storage: IntType)     // the type given to the macro, and that of the C field
    | KString
    | KEnum(enumerators: seq<Enumerator>)
    | KPtrArray(element: Struct)
    | KUnion(cases: seq<Case>, tag: string)

  datatype Field = Field(name: string, kind: Kind)

  datatype Struct = Struct(fields: seq<Field>)

  // JRPC_UNION_FIELD_STRUCT
  datatype Case = Case(name: string, tag: int, body: Struct)

  // ---------------------------------------------------------------------
  // Values
  // ---------------------------------------------------------------------

  // The content of a C field; a union holds the member its tag selects, None for an unlisted tag.
  datatype Val =
    | VInt(i: int)
    | VString(s: Option<string>)
    | VArray(a: Option<seq<StructVal>>)
    | VUnion(u: Option<StructVal>)

  datatype StructVal = StructVal(fields: map<string, Val>)

  function Low(t: IntType): int {
    match t
    case Int32 => -0x8000_0000
    case UInt32 => 0
    case Int64 => -0x8000_0000_0000_0000
    case UInt64 => 0
  }

  function Size(t: IntType): int {
    if t == Int32 || t == UInt32 then TWO_32 else TWO_64
  }

  predicate InRange(t: IntType, i: int) {
    Low(t) <= i < Low(t) + Size(t)
  }

  /** Integer conversion: the value of type t equal to i modulo the size of t. */
  function Convert(t: IntType, i: int): (r: int)
    ensures InRange(t, r)
    ensures InRange(t, i) ==> r == i
  {
    (i - Low(t)) % Size(t) + Low(t)
  }

  function TagValue(fields: map<string, Val>, tag: string): int {
    if tag in fields && fields[tag].VInt? then fields[tag].i else 0
  }

  function FindCase(cases: seq<Case>, tag: int): (r: nat)
    ensures r <= |cases|
    ensures r < |cases| ==> cases[r].tag == tag
    ensures forall i :: 0 <= i < r ==> cases[i].tag != tag
  {
    IndexOf(cases, (c: Case) => c.tag == tag)
  }

  function FindValue(es: seq<Enumerator>, value: int): (r: nat)
    ensures r <= |es|
    ensures r < |es| ==> es[r].value == value
    ensures forall i :: 0 <= i < r ==> es[i].value != value
  {
    IndexOf(es, (e: Enumerator) => e.value == value)
  }

  function FindName(es: seq<Enumerator>, name: string): (r: nat)
    ensures r <= |es|
    ensures r < |es| ==> es[r].name == name
    ensures forall i :: 0 <= i < r ==> es[i].name != name
  {
    IndexOf(es, (e: Enumerator) => e.name == name)
  }

  // ---------------------------------------------------------------------
  // Typing
  // ---------------------------------------------------------------------

  /** The value is one that the C field can hold. */
  predicate TypedKind(k: Kind, v: Val, tag: int)
    decreases k, 0
  {
    match k
    case KInt(_, storage) => v.VInt? && InRange(storage, v.i)
    case KString => v.VString?
    case KEnum(_) => v.VInt?
    case KPtrArray(e) => v.VArray? && (v.a.Some? ==> forall i :: 0 <= i < |v.a.value| ==> TypedStruct(e, v.a.value[i]))
    case KUnion(cases, _) =>
      v.VUnion?
      && (var c := FindCase(cases, tag);
          if c == |cases| then v.u == None else v.u.Some? && TypedStruct(cases[c].body, v.u.value))
  }

  predicate TypedStruct(st: Struct, v: StructVal)
    decreases st, 1
  {
    v.fields.Keys == Names(st.fields) && TypedFields(st.fields, v.fields)
  }

  predicate TypedFields(fs: seq<Field>, v: map<string, Val>)
    decreases fs, 0
  {
    forall i :: 0 <= i < |fs| ==> fs[i].name in v && TypedKind(fs[i].kind, v[fs[i].name], TagFor(fs[i].kind, v))
  }

  function Names(fs: seq<Field>): set<string> {
    set f | f in fs :: f.name
  }

  function TagFor(k: Kind, v: map<string, Val>): int {
    if k.KUnion? then TagValue(v, k.tag) else 0
  }

  // ---------------------------------------------------------------------
  // Well-formed schemas
  // ---------------------------------------------------------------------

  /** Distinct names and values; macro type and field type of an integer agree, or narrow a 64-bit field. */
  ghost predicate WellFormedKind(k: Kind)
    decreases k, 0
  {
    match k
    case KInt(cast, storage) => cast == storage || (storage == Int64 && (cast == Int32 || cast == UInt32))
    case KString => true
    case KEnum(es) =>
      forall i, j :: 0 <= i < j < |es| ==> es[i].name != es[j].name && es[i].value != es[j].value
    case KPtrArray(e) => WellFormed(e)
    case KUnion(cases, _) =>
      && (forall i, j :: 0 <= i < j < |cases| ==> cases[i].tag != cases[j].tag)
      && (forall i :: 0 <= i < |cases| ==> WellFormed(cases[i].body))
  }

  /** Field names are distinct, and each union's tag is an integer or enum field declared before it. */
  ghost predicate WellFormed(st: Struct)
    decreases st, 1
  {
    WellFormedFields(st.fields)
  }

  ghost predicate WellFormedFields(fs: seq<Field>)
    decreases fs, 0
  {
    && (forall i, j :: 0 <= i < j < |fs| ==> fs[i].name != fs[j].name)
    && (forall i :: 0 <= i < |fs| ==> WellFormedKind(fs[i].kind))
    && (forall i :: 0 <= i < |fs| && fs[i].kind.KUnion? ==> TagBefore(fs, i))
  }

  ghost predicate TagBefore(fs: seq<Field>, i: nat)
    requires i < |fs| && fs[i].kind.KUnion?
  {
    exists j :: 0 <= j < i && fs[j].name == fs[i].kind.tag && (fs[j].kind.KEnum? || fs[j].kind.KInt?)
  }

  // ---------------------------------------------------------------------
  // Marshalling
  // ---------------------------------------------------------------------

  /** The JSON value of a field; None when no member is set, as for a NULL string. */
  function MarshalKind(k: Kind, v: Val, tag: int): Result<Option<Json>>
    requires TypedKind(k, v, tag)
    decreases k, 0
  {
    match k
    case KInt(_, _) => Ok(Some(JInt(Convert(Int64, v.i))))
    case KString => Ok(match v.s case Some(s) => Some(JString(s)) case None => None)
    case KEnum(es) =>
      var n := FindValue(es, v.i);
      if n < |es| then Ok(Some(JString(es[n].name))) else Err(ERR_INVALID_ENUM_VALUE)
    case KPtrArray(e) =>
      (match v.a
       case None => Ok(Some(JNull))
       case Some(a) =>
         match MarshalArray(e, a)
         case Ok(js) => Ok(Some(JArray(js)))
         case Err(c) => Err(c))
    case KUnion(cases, _) =>
      var c := FindCase(cases, tag);
      if c == |cases| then Ok(Some(JObject(map[])))
      else
        match MarshalStruct(cases[c].body, v.u.value)
        case Ok(j) => Ok(Some(JObject(map[cases[c].name := j])))
        case Err(e) => Err(e)
  }

  /** The elements in order, stopping at the first error. */
  function MarshalArray(e: Struct, a: seq<StructVal>): (r: Result<seq<Json>>)
    requires forall i :: 0 <= i < |a| ==> TypedStruct(e, a[i])
    ensures r.Ok? ==> |r.value| == |a|
    decreases e, 2, |a|
  {
    if a == [] then Ok([])
    else
      match MarshalArray(e, a[..|a| - 1])
      case Err(c) => Err(c)
      case Ok(js) =>
        match MarshalStruct(e, a[|a| - 1])
        case Err(c) => Err(c)
        case Ok(j) => Ok(js + [j])
  }

  function MarshalStruct(st: Struct, v: StructVal): Result<Json>
    requires TypedStruct(st, v)
    decreases st, 1
  {
    match MarshalFields(st.fields, v.fields)
    case Ok(m) => Ok(JObject(m))
    case Err(c) => Err(c)
  }

  /** The members set by the fields, in order, stopping at the first error. */
  function MarshalFields(fs: seq<Field>, v: map<string, Val>): Result<map<string, Json>>
    requires TypedFields(fs, v)
    decreases fs, 0
  {
    if fs == [] then Ok(map[])
    else
      var f := fs[|fs| - 1];
      match MarshalFields(fs[..|fs| - 1], v)
      case Err(c) => Err(c)
      case Ok(m) =>
        match MarshalKind(f.kind, v[f.name], TagFor(f.kind, v))
        case Err(c) => Err(c)
        case Ok(None) => Ok(m)
        case Ok(Some(j)) => Ok(m[f.name := j])
  }

  // ---------------------------------------------------------------------
  // Unmarshalling
  // ---------------------------------------------------------------------

  /** The type test of jrpc_unmarshall_field. */
  predicate Expected(k: Kind, j: Json) {
    match k
    case KInt(_, _) => j.JInt?
    case KString => j.JString?
    case KEnum(_) => j.JString?
    case KPtrArray(_) => j.JArray? || j.JNull?
    case KUnion(_, _) => j.JObject?
  }

  function UnmarshalKind(k: Kind, j: Json, tag: int): Result<Val>
    decreases k, 0
  {
    if !Expected(k, j) then Err(ERR_TYPE_MISMATCH)
    else
      match k
      case KInt(cast, storage) => Ok(VInt(Convert(storage, Convert(cast, j.i))))
      case KString => Ok(VString(Some(j.s)))
      case KEnum(es) =>
        var n := FindName(es, j.s);
        if n < |es| then Ok(VInt(es[n].value)) else Err(ERR_INVALID_ENUM_STRING)
      case KPtrArray(e) =>
        if j == JNull then Ok(VArray(None))
        else
          (match UnmarshalArray(e, j.elements)
           case Ok(a) => Ok(VArray(Some(a)))
           case Err(c) => Err(c))
      case KUnion(cases, _) =>
        var c := FindCase(cases, tag);
        if c == |cases| then Ok(VUnion(None))
        else
          match Get(j, cases[c].name)
          case None => Err(ERR_FIELD_NOT_FOUND)
          case Some(b) =>
            if !b.JObject? then Err(ERR_TYPE_MISMATCH)
            else
              match UnmarshalStruct(cases[c].body, b)
              case Ok(s) => Ok(VUnion(Some(s)))
              case Err(e) => Err(e)
  }

  function UnmarshalArray(e: Struct, js: seq<Json>): (r: Result<seq<StructVal>>)
    ensures r.Ok? ==> |r.value| == |js|
    decreases e, 2, |js|
  {
    if js == [] then Ok([])
    else
      match UnmarshalArray(e, js[..|js| - 1])
      case Err(c) => Err(c)
      case Ok(a) =>
        match UnmarshalStruct(e, js[|js| - 1])
        case Err(c) => Err(c)
        case Ok(s) => Ok(a + [s])
  }

  function UnmarshalStruct(st: Struct, j: Json): Result<StructVal>
    decreases st, 1
  {
    match UnmarshalFields(st.fields, j)
    case Ok(m) => Ok(StructVal(m))
    case Err(c) => Err(c)
  }

  /** Fills the fields in order; a union reads the tag field as it is at that moment, 0 if not yet filled. */
  function UnmarshalFields(fs: seq<Field>, obj: Json): Result<map<string, Val>>
    decreases fs, 0
  {
    if fs == [] then Ok(map[])
    else
      var f := fs[|fs| - 1];
      match UnmarshalFields(fs[..|fs| - 1], obj)
      case Err(c) => Err(c)
      case Ok(m) =>
        match Get(obj, f.name)
        case None => Err(ERR_FIELD_NOT_FOUND)
        case Some(j) =>
          match UnmarshalKind(f.kind, j, TagFor(f.kind, m))
          case Err(c) => Err(c)
          case Ok(v) => Ok(m[f.name := v])
  }

  // ---------------------------------------------------------------------
  // The round trip
  // ---------------------------------------------------------------------

  /** The values that survive: integers in the range of their macro type, listed enumerators, no NULL string. */
  ghost predicate PortableKind(k: Kind, v: Val, tag: int)
    requires TypedKind(k, v, tag)
    decreases k, 0
  {
    match k
    case KInt(cast, _) => InRange(cast, v.i)
    case KString => v.s.Some?
    case KEnum(es) => FindValue(es, v.i) < |es|
    case KPtrArray(e) => v.a.Some? ==> forall i :: 0 <= i < |v.a.value| ==> PortableStruct(e, v.a.value[i])
    case KUnion(cases, _) =>
      var c := FindCase(cases, tag);
      c < |cases| ==> PortableStruct(cases[c].body, v.u.value)
  }

  ghost predicate PortableStruct(st: Struct, v: StructVal)
    requires TypedStruct(st, v)
    decreases st, 1
  {
    PortableFields(st.fields, v.fields)
  }

  ghost predicate PortableFields(fs: seq<Field>, v: map<string, Val>)
    requires TypedFields(fs, v)
    decreases fs, 0
  {
    forall i :: 0 <= i < |fs| ==> PortableKind(fs[i].kind, v[fs[i].name], TagFor(fs[i].kind, v))
  }

  ghost predicate KindReturns(k: Kind, v: Val, tag: int)
    requires TypedKind(k, v, tag)
  {
    match MarshalKind(k, v, tag)
    case Ok(Some(j)) => UnmarshalKind(k, j, tag) == Ok(v)
    case _ => false
  }

  ghost predicate StructReturns(st: Struct, v: StructVal)
    requires TypedStruct(st, v)
  {
    match MarshalStruct(st, v)
    case Ok(j) => j.JObject? && UnmarshalStruct(st, j) == Ok(v)
    case Err(_) => false
  }

  ghost predicate ArrayReturns(e: Struct, a: seq<StructVal>)
    requires forall i :: 0 <= i < |a| ==> TypedStruct(e, a[i])
  {
    match MarshalArray(e, a)
    case Ok(js) => UnmarshalArray(e, js) == Ok(a)
    case Err(_) => false
  }

  lemma ConvertReturns(cast: IntType, storage: IntType, i: int)
    requires InRange(storage, i)
    requires cast == storage || (storage == Int64 && (cast == Int32 || cast == UInt32))
    ensures Convert(storage, Convert(cast, Convert(Int64, i))) == i <==> InRange(cast, i)
  {
  }

  lemma EnumNameFound(es: seq<Enumerator>, value: int)
    requires WellFormedKind(KEnum(es))
    ensures var n := FindValue(es, value); n < |es| ==> FindName(es, es[n].name) == n
  {
  }

  /** A listed value comes back; any other is refused. */
  lemma EnumReturns(es: seq<Enumerator>, value: int)
    requires WellFormedKind(KEnum(es))
    ensures match MarshalKind(KEnum(es), VInt(value), 0)
            case Ok(Some(j)) =>
              && (exists i :: 0 <= i < |es| && es[i].value == value && j == JString(es[i].name))
              && UnmarshalKind(KEnum(es), j, 0) == Ok(VInt(value))
            case Ok(None) => false
            case Err(c) => c == ERR_INVALID_ENUM_VALUE && forall i :: 0 <= i < |es| ==> es[i].value != value
  {
    var n := FindValue(es, value);
    EnumNameFound(es, value);
    if n < |es| {
      assert es[n].value == value;
    }
  }

  /** A name that is not listed is refused. */
  lemma EnumNameRefused(es: seq<Enumerator>, name: string)
    ensures UnmarshalKind(KEnum(es), JString(name), 0) == Err(ERR_INVALID_ENUM_STRING) <==>
            forall i :: 0 <= i < |es| ==> es[i].name != name
  {
    var n := FindName(es, name);
    if n < |es| {
      assert es[n].name == name;
    }
  }

  lemma {:induction false} KindRoundTrip(k: Kind, v: Val, tag: int)
    requires TypedKind(k, v, tag) && WellFormedKind(k)
    ensures KindReturns(k, v, tag) <==> PortableKind(k, v, tag)
    decreases k, 0
  {
    match k
    case KInt(cast, storage) => ConvertReturns(cast, storage, v.i);
    case KString =>
    case KEnum(es) => EnumNameFound(es, v.i);
    case KPtrArray(e) =>
      if v.a.Some? {
        ArrayRoundTrip(e, v.a.value);
      }
    case KUnion(cases, _) =>
      var c := FindCase(cases, tag);
      if c < |cases| {
        StructRoundTrip(cases[c].body, v.u.value);
      }
  }

  lemma {:induction false} ArrayRoundTrip(e: Struct, a: seq<StructVal>)
    requires WellFormed(e) && forall i :: 0 <= i < |a| ==> TypedStruct(e, a[i])
    ensures ArrayReturns(e, a) <==> forall i :: 0 <= i < |a| ==> PortableStruct(e, a[i])
    decreases e, 2, |a|
  {
    if a != [] {
      var init, last := a[..|a| - 1], a[|a| - 1];
      ArrayRoundTrip(e, init);
      StructRoundTrip(e, last);
      ArrayStep(e, a);
      assert (forall i :: 0 <= i < |a| ==> PortableStruct(e, a[i]))
        <==> (forall i :: 0 <= i < |init| ==> PortableStruct(e, init[i])) && PortableStruct(e, last) by {
        assert forall i :: 0 <= i < |init| ==> init[i] == a[i];
      }
    }
  }

  lemma {:induction false} ArrayStep(e: Struct, a: seq<StructVal>)
    requires a != [] && forall i :: 0 <= i < |a| ==> TypedStruct(e, a[i])
    ensures ArrayReturns(e, a) <==> ArrayReturns(e, a[..|a| - 1]) && StructReturns(e, a[|a| - 1])
  {
    var init, last := a[..|a| - 1], a[|a| - 1];
    assert a == init + [last];
    match MarshalArray(e, init)
    case Err(_) =>
    case Ok(js) =>
      match MarshalStruct(e, last)
      case Err(_) =>
      case Ok(j) =>
        var all := js + [j];
        assert all[..|all| - 1] == js;
        if UnmarshalArray(e, js).Ok? && UnmarshalStruct(e, j).Ok? {
          var b, s := UnmarshalArray(e, js).value, UnmarshalStruct(e, j).value;
          assert UnmarshalArray(e, all) == Ok(b + [s]);
          assert b + [s] == init + [last] <==> b == init && s == last by {
            assert (b + [s])[..|init|] == b && (init + [last])[..|init|] == init;
          }
        }
  }

  lemma {:induction false} StructRoundTrip(st: Struct, v: StructVal)
    requires TypedStruct(st, v) && WellFormed(st)
    ensures StructReturns(st, v) <==> PortableStruct(st, v)
    decreases st, 1
  {
    var m := MarshalFields(st.fields, v.fields);
    FieldsRoundTrip(st.fields, v.fields, if m.Ok? then m.value else map[]);
    assert Restrict(v.fields, st.fields) == v.fields;
  }

  // ---------------------------------------------------------------------
  // Field lists
  // ---------------------------------------------------------------------

  /** The part of a struct that the fields fs make up. */
  ghost function Restrict(v: map<string, Val>, fs: seq<Field>): map<string, Val> {
    map n | n in Names(fs) && n in v :: v[n]
  }

  /** The object agrees with what the fields fs have set. */
  ghost predicate Agrees(members: map<string, Json>, fs: seq<Field>, m: map<string, Json>) {
    forall n :: n in Names(fs) ==> (n in members <==> n in m) && (n in m ==> members[n] == m[n])
  }

  ghost predicate FieldsReturn(fs: seq<Field>, v: map<string, Val>, members: map<string, Json>)
    requires TypedFields(fs, v)
  {
    MarshalFields(fs, v).Ok? && UnmarshalFields(fs, JObject(members)) == Ok(Restrict(v, fs))
  }

  lemma NamesAppend(fs: seq<Field>)
    requires fs != []
    ensures Names(fs) == Names(fs[..|fs| - 1]) + {fs[|fs| - 1].name}
  {
    var init, f := fs[..|fs| - 1], fs[|fs| - 1];
    assert fs == init + [f];
    forall n | n in Names(fs)
      ensures n in Names(init) + {f.name}
    {
      var g :| g in fs && g.name == n;
      assert g in init || g == f;
    }
    forall n | n in Names(init) + {f.name}
      ensures n in Names(fs)
    {
      if n in Names(init) {
        var g :| g in init && g.name == n;
        assert g in fs;
      } else {
        assert f in fs;
      }
    }
  }

  lemma LastNameIsNew(fs: seq<Field>)
    requires fs != [] && WellFormedFields(fs)
    ensures fs[|fs| - 1].name !in Names(fs[..|fs| - 1])
    ensures WellFormedFields(fs[..|fs| - 1])
  {
    var init := fs[..|fs| - 1];
    forall g | g in init
      ensures g.name != fs[|fs| - 1].name
    {
      var i :| 0 <= i < |init| && init[i] == g;
      assert fs[i] == g;
    }
    forall i | 0 <= i < |init| && init[i].kind.KUnion?
      ensures TagBefore(init, i)
    {
      assert TagBefore(fs, i);
      var j :| 0 <= j < i && fs[j].name == fs[i].kind.tag && (fs[j].kind.KEnum? || fs[j].kind.KInt?);
      assert init[j] == fs[j];
    }
  }

  lemma {:induction false} UnmarshalledNames(fs: seq<Field>, obj: Json)
    requires UnmarshalFields(fs, obj).Ok?
    ensures UnmarshalFields(fs, obj).value.Keys == Names(fs)
    decreases |fs|
  {
    if fs != [] {
      UnmarshalledNames(fs[..|fs| - 1], obj);
      NamesAppend(fs);
    }
  }

  lemma {:induction false} MarshalledNames(fs: seq<Field>, v: map<string, Val>)
    requires TypedFields(fs, v) && MarshalFields(fs, v).Ok?
    ensures MarshalFields(fs, v).value.Keys <= Names(fs)
    decreases |fs|
  {
    if fs != [] {
      MarshalledNames(fs[..|fs| - 1], v);
      NamesAppend(fs);
    }
  }

  lemma {:induction false} FieldsRoundTrip(fs: seq<Field>, v: map<string, Val>, members: map<string, Json>)
    requires TypedFields(fs, v) && WellFormedFields(fs)
    requires MarshalFields(fs, v).Ok? ==> Agrees(members, fs, MarshalFields(fs, v).value)
    ensures FieldsReturn(fs, v, members) <==> PortableFields(fs, v)
    decreases fs, 0
  {
    if fs == [] {
      assert Restrict(v, fs) == map[];
    } else {
      var init, f := fs[..|fs| - 1], fs[|fs| - 1];
      LastNameIsNew(fs);
      NamesAppend(fs);
      assert forall i :: 0 <= i < |init| ==> init[i] == fs[i];
      PortableAppend(fs, v);
      KindRoundTrip(f.kind, v[f.name], TagFor(f.kind, v));
      if MarshalFields(fs, v).Ok? {
        MarshalledNames(init, v);
        var m0 := MarshalFields(init, v).value;
        assert Agrees(members, init, m0);
        FieldsRoundTrip(init, v, members);
        FieldStep(fs, v, members);
      } else if MarshalFields(init, v).Err? {
        FieldsRoundTrip(init, v, members);
      }
    }
  }

  lemma PortableAppend(fs: seq<Field>, v: map<string, Val>)
    requires fs != [] && TypedFields(fs, v)
    requires TypedFields(fs[..|fs| - 1], v)
    ensures var f := fs[|fs| - 1];
            PortableFields(fs, v) <==> PortableFields(fs[..|fs| - 1], v) && PortableKind(f.kind, v[f.name], TagFor(f.kind, v))
  {
    var init := fs[..|fs| - 1];
    assert forall i :: 0 <= i < |init| ==> init[i] == fs[i];
  }

  lemma {:induction false} FieldStep(fs: seq<Field>, v: map<string, Val>, members: map<string, Json>)
    requires fs != [] && TypedFields(fs, v) && TypedFields(fs[..|fs| - 1], v) && WellFormedFields(fs)
    requires MarshalFields(fs, v).Ok? && MarshalFields(fs[..|fs| - 1], v).Ok?
    requires Agrees(members, fs, MarshalFields(fs, v).value)
    requires MarshalFields(fs[..|fs| - 1], v).value.Keys <= Names(fs[..|fs| - 1])
    requires Names(fs) == Names(fs[..|fs| - 1]) + {fs[|fs| - 1].name}
    requires fs[|fs| - 1].name !in Names(fs[..|fs| - 1])
    ensures var f := fs[|fs| - 1];
            (FieldsReturn(fs, v, members) <==>
              FieldsReturn(fs[..|fs| - 1], v, members) && KindReturns(f.kind, v[f.name], TagFor(f.kind, v)))
  {
    var init, f := fs[..|fs| - 1], fs[|fs| - 1];
    var obj := JObject(members);
    var got := UnmarshalFields(init, obj);
    match MarshalKind(f.kind, v[f.name], TagFor(f.kind, v))
    case Ok(None) => assert f.name !in members;
    case Err(_) =>
    case Ok(Some(j)) =>
      assert members[f.name] == j;
      if got.Ok? {
        UnmarshalledNames(init, obj);
        var last := UnmarshalKind(f.kind, j, TagFor(f.kind, got.value));
        if last.Ok? {
          assert UnmarshalFields(fs, obj) == Ok(got.value[f.name := last.value]);
          SplitLast(v, fs, got.value, last.value);
        }
        if got.value == Restrict(v, init) {
          TagIsThere(fs, v);
        }
      }
  }

  lemma SplitLast(v: map<string, Val>, fs: seq<Field>, m: map<string, Val>, x: Val)
    requires fs != [] && TypedFields(fs, v)
    requires Names(fs) == Names(fs[..|fs| - 1]) + {fs[|fs| - 1].name}
    requires fs[|fs| - 1].name !in Names(fs[..|fs| - 1])
    requires m.Keys == Names(fs[..|fs| - 1])
    ensures var f := fs[|fs| - 1];
            m[f.name := x] == Restrict(v, fs) <==> m == Restrict(v, fs[..|fs| - 1]) && x == v[f.name]
  {
    var init, f := fs[..|fs| - 1], fs[|fs| - 1];
    var m' := m[f.name := x];
    forall n | n in Names(init)
      ensures n in v
    {
      var g :| g in init && g.name == n;
      var i :| 0 <= i < |init| && init[i] == g;
      assert fs[i] == g;
    }
    if m' == Restrict(v, fs) {
      assert m'[f.name] == v[f.name];
      forall n | n in m
        ensures m[n] == v[n]
      {
        assert m'[n] == m[n];
      }
      assert m == Restrict(v, init);
    }
    if m == Restrict(v, init) && x == v[f.name] {
      assert m' == Restrict(v, fs);
    }
  }

  /** When the union is read, its tag has already been filled. */
  lemma TagIsThere(fs: seq<Field>, v: map<string, Val>)
    requires fs != [] && TypedFields(fs, v) && WellFormedFields(fs)
    ensures var f := fs[|fs| - 1]; TagFor(f.kind, Restrict(v, fs[..|fs| - 1])) == TagFor(f.kind, v)
  {
    var init, f := fs[..|fs| - 1], fs[|fs| - 1];
    if f.kind.KUnion? {
      assert TagBefore(fs, |fs| - 1);
      var j :| 0 <= j < |fs| - 1 && fs[j].name == f.kind.tag && (fs[j].kind.KEnum? || fs[j].kind.KInt?);
      assert init[j] == fs[j];
      assert fs[j] in init;
    }
  }

  // ---------------------------------------------------------------------
  // Struct pointers and arrays
  // ---------------------------------------------------------------------

  /** JRPC_STRUCT2JSON on a struct pointer, None being NULL. */
  function StructToJson(st: Struct, p: Option<StructVal>): Result<Json>
    requires p.Some? ==> TypedStruct(st, p.value)
  {
    match p
    case None => Ok(JNull)
    case Some(v) => MarshalStruct(st, v)
  }

  /** JRPC_JSON2STRUCT. */
  function JsonToStruct(st: Struct, j: Json): Result<Option<StructVal>> {
    if j == JNull then Ok(None)
    else
      match UnmarshalStruct(st, j)
      case Ok(v) => Ok(Some(v))
      case Err(c) => Err(c)
  }

  /**
    For every well-formed schema and every value its C struct can hold,
    unmarshalling what marshalling produced gives the value back if and only if
    each integer lies in the range of its macro type, each enum holds a listed
    enumerator, and no string is NULL.
   */
  lemma MarshalRoundTrip(st: Struct, p: Option<StructVal>)
    requires WellFormed(st) && (p.Some? ==> TypedStruct(st, p.value))
    ensures var j := StructToJson(st, p);
            (j.Ok? && JsonToStruct(st, j.value) == Ok(p)) <==> (p.Some? ==> PortableStruct(st, p.value))
  {
    if p.Some? {
      StructRoundTrip(st, p.value);
    }
  }

  /** The loop of jrpc_marshall_array. */
  method JrpcMarshalArray(e: Struct, a: Option<seq<StructVal>>) returns (r: Result<Json>)
    requires a.Some? ==> forall i :: 0 <= i < |a.value| ==> TypedStruct(e, a.value[i])
    ensures var k := MarshalKind(KPtrArray(e), VArray(a), 0);
            match r case Ok(j) => k == Ok(Some(j)) case Err(c) => k == Err(c)
  {
    if a == None {
      return Ok(JNull);
    }
    var elements: seq<Json> := [];
    var p := 0;
    while p < |a.value|
      invariant 0 <= p <= |a.value|
      invariant MarshalArray(e, a.value[..p]) == Ok(elements)
    {
      assert a.value[..p + 1][..p] == a.value[..p];
      var elem := MarshalStruct(e, a.value[p]);
      if elem.Err? {
        MarshalErrorStays(e, a.value, p + 1);
        return Err(elem.code);
      }
      elements := elements + [elem.value];
      p := p + 1;
    }
    assert a.value[..p] == a.value;
    return Ok(JArray(elements));
  }

  lemma {:induction false} MarshalErrorStays(e: Struct, a: seq<StructVal>, p: nat)
    requires p <= |a| && forall i :: 0 <= i < |a| ==> TypedStruct(e, a[i])
    requires MarshalArray(e, a[..p]).Err?
    ensures MarshalArray(e, a) == MarshalArray(e, a[..p])
    decreases |a| - p
  {
    if p < |a| {
      assert a[..p + 1][..p] == a[..p];
      MarshalErrorStays(e, a, p + 1);
    } else {
      assert a[..p] == a;
    }
  }

  /** The loop of jrpc_unmarshall_array. */
  method JrpcUnmarshalArray(e: Struct, j: Json) returns (r: Result<Option<seq<StructVal>>>)
    requires j.JArray? || j.JNull?
    ensures var k := UnmarshalKind(KPtrArray(e), j, 0);
            match r case Ok(a) => k == Ok(VArray(a)) case Err(c) => k == Err(c)
  {
    if j == JNull {
      return Ok(None);
    }
    var js := j.elements;
    var structs: seq<StructVal> := [];
    var index := 0;
    while index < |js|
      invariant 0 <= index <= |js|
      invariant UnmarshalArray(e, js[..index]) == Ok(structs)
    {
      assert js[..index + 1][..index] == js[..index];
      var elem := UnmarshalStruct(e, js[index]);
      if elem.Err? {
        UnmarshalErrorStays(e, js, index + 1);
        return Err(elem.code);
      }
      structs := structs + [elem.value];
      index := index + 1;
    }
    assert js[..index] == js;
    return Ok(Some(structs));
  }

  lemma {:induction false} UnmarshalErrorStays(e: Struct, js: seq<Json>, p: nat)
    requires p <= |js| && UnmarshalArray(e, js[..p]).Err?
    ensures UnmarshalArray(e, js) == UnmarshalArray(e, js[..p])
    decreases |js| - p
  {
    if p < |js| {
      assert js[..p + 1][..p] == js[..p];
      UnmarshalErrorStays(e, js, p + 1);
    } else {
      assert js[..p] == js;
    }
  }

}
