/**
  What the marshalling macros put on the wire, and what they accept from it, one
  law for each kind of field (librpc/jrpc/include/libjrpc/marshall.h,
  librpc/jrpc/marshall.c).
 */
module MarshalWire {
  import opened Wrappers
  import opened JsonRpc
  import opened Marshal

  // ---------------------------------------------------------------------
  // Integers
  // ---------------------------------------------------------------------

  /** A conversion to a C type keeps the integer modulo the size of the type. */
  lemma ConvertExactly(i: int)
    ensures -0x8000_0000 <= Convert(Int32, i) < 0x8000_0000 && (Convert(Int32, i) - i) % 0x1_0000_0000 == 0
    ensures 0 <= Convert(UInt32, i) < 0x1_0000_0000 && (Convert(UInt32, i) - i) % 0x1_0000_0000 == 0
    ensures -0x8000_0000_0000_0000 <= Convert(Int64, i) < 0x8000_0000_0000_0000
    ensures 0 <= Convert(UInt64, i) < 0x1_0000_0000_0000_0000
    ensures (Convert(Int64, i) - i) % 0x1_0000_0000_0000_0000 == 0 && (Convert(UInt64, i) - i) % 0x1_0000_0000_0000_0000 == 0
  {
    Residue(i + 0x8000_0000, 0x1_0000_0000);
    Residue(i, 0x1_0000_0000);
    Residue(i + 0x8000_0000_0000_0000, 0x1_0000_0000_0000_0000);
    Residue(i, 0x1_0000_0000_0000_0000);
  }

  lemma Residue(a: int, n: int)
    requires n > 0
    ensures (a % n - a) % n == 0
  {
    var q := a / n;
    assert a % n - a == -q * n;
    Multiple(-q, n);
  }

  lemma Multiple(q: int, n: int)
    requires n > 0
    ensures q * n % n == 0
  {
    var p := q * n / n;
    assert q * n == p * n + q * n % n;
    assert (q - p) * n == q * n % n;
    NoneBetween(q - p, n);
  }

  lemma NoneBetween(d: int, n: int)
    requires n > 0 && -n < d * n < n
    ensures d == 0
  {
    if d > 0 {
      Times(1, d, n);
    } else if d < 0 {
      Times(d, -1, n);
    }
  }

  lemma Times(a: int, b: int, n: int)
    requires a <= b && n > 0
    ensures a * n <= b * n
  {
    assert (b - a) * n >= 0;
  }

  // ---------------------------------------------------------------------
  // What is sent
  // ---------------------------------------------------------------------

  /** A number as it is, in 64 bits with sign; a string as it is, and no member for a NULL one. */
  lemma SimpleSent(cast: IntType, storage: IntType, i: int, s: Option<string>)
    requires InRange(storage, i)
    ensures MarshalKind(KInt(cast, storage), VInt(i), 0)
         == Ok(Some(JInt(if i < 0x8000_0000_0000_0000 then i else i - 0x1_0000_0000_0000_0000)))
    ensures MarshalKind(KString, VString(s), 0) == Ok(if s.Some? then Some(JString(s.value)) else None)
  {
  }

  /** An enum value is sent as its name. */
  lemma EnumSent(es: seq<Enumerator>, i: nat, value: int)
    requires WellFormedKind(KEnum(es))
    ensures i < |es| ==> MarshalKind(KEnum(es), VInt(es[i].value), 0) == Ok(Some(JString(es[i].name)))
    ensures (forall j :: 0 <= j < |es| ==> es[j].value != value) ==> MarshalKind(KEnum(es), VInt(value), 0) == Err(-32096)
  {
    if i < |es| {
      assert FindValue(es, es[i].value) == i;
    }
  }

  /** A union is sent as an object with the member of its tag, and without members for any other tag. */
  lemma UnionSent(cases: seq<Case>, tag: string, value: int, v: Val, i: nat)
    requires TypedKind(KUnion(cases, tag), v, value) && WellFormedKind(KUnion(cases, tag))
    ensures i < |cases| && cases[i].tag == value ==>
              && v.u.Some? && TypedStruct(cases[i].body, v.u.value)
              && MarshalKind(KUnion(cases, tag), v, value)
                 == match MarshalStruct(cases[i].body, v.u.value)
                    case Ok(j) => Ok(Some(JObject(map[cases[i].name := j])))
                    case Err(c) => Err(c)
    ensures (forall j :: 0 <= j < |cases| ==> cases[j].tag != value) ==>
              MarshalKind(KUnion(cases, tag), v, value) == Ok(Some(JObject(map[])))
  {
    if i < |cases| && cases[i].tag == value {
      assert FindCase(cases, value) == i;
    }
  }

  /** An array is sent element by element; the first element that cannot be sent gives the error; a NULL array is null. */
  lemma {:induction false} ArraySent(e: Struct, a: seq<StructVal>)
    requires forall i :: 0 <= i < |a| ==> TypedStruct(e, a[i])
    ensures MarshalKind(KPtrArray(e), VArray(None), 0) == Ok(Some(JNull))
    ensures var r := MarshalKind(KPtrArray(e), VArray(Some(a)), 0); r.Ok? ==> r.value.Some? && r.value.value.JArray? && AllSent(e, a, r.value.value.elements)
    ensures var r := MarshalKind(KPtrArray(e), VArray(Some(a)), 0); r.Err? ==> FailsToSend(e, a, r.code)
  {
    ElementsSent(e, a);
  }

  ghost predicate AllSent(e: Struct, a: seq<StructVal>, js: seq<Json>)
    requires forall j :: 0 <= j < |a| ==> TypedStruct(e, a[j])
  {
    |js| == |a| && forall i :: 0 <= i < |a| ==> MarshalStruct(e, a[i]) == Ok(js[i])
  }

  ghost predicate FirstUnsent(e: Struct, a: seq<StructVal>, i: int, c: int)
    requires forall j :: 0 <= j < |a| ==> TypedStruct(e, a[j])
  {
    0 <= i < |a| && MarshalStruct(e, a[i]) == Err(c) && forall j :: 0 <= j < i ==> MarshalStruct(e, a[j]).Ok?
  }

  ghost predicate FailsToSend(e: Struct, a: seq<StructVal>, c: int)
    requires forall j :: 0 <= j < |a| ==> TypedStruct(e, a[j])
  {
    exists i :: FirstUnsent(e, a, i, c)
  }

  lemma {:induction false} ElementsSent(e: Struct, a: seq<StructVal>)
    requires forall i :: 0 <= i < |a| ==> TypedStruct(e, a[i])
    ensures var r := MarshalArray(e, a); r.Ok? ==> AllSent(e, a, r.value)
    ensures var r := MarshalArray(e, a); r.Err? ==> FailsToSend(e, a, r.code)
    decreases |a|
  {
    if a != [] {
      var n := |a| - 1;
      ElementsSent(e, a[..n]);
      match MarshalArray(e, a[..n])
      case Err(c) =>
        var i :| FirstUnsent(e, a[..n], i, c);
        assert forall j :: 0 <= j <= i ==> a[..n][j] == a[j];
        assert FirstUnsent(e, a, i, c);
      case Ok(js) =>
        assert forall j :: 0 <= j < n ==> a[..n][j] == a[j];
        if MarshalStruct(e, a[n]).Err? {
          assert FirstUnsent(e, a, n, MarshalStruct(e, a[n]).code);
        }
    }
  }

  /** What field i contributes. */
  function Sent(fs: seq<Field>, v: map<string, Val>, i: int): Result<Option<Json>>
    requires TypedFields(fs, v) && 0 <= i < |fs|
  {
    MarshalKind(fs[i].kind, v[fs[i].name], TagFor(fs[i].kind, v))
  }

  ghost predicate FirstFieldUnsent(fs: seq<Field>, v: map<string, Val>, i: int, c: int)
    requires TypedFields(fs, v)
  {
    0 <= i < |fs| && Sent(fs, v, i) == Err(c) && forall j :: 0 <= j < i ==> Sent(fs, v, j).Ok?
  }

  ghost predicate FailsToSendField(fs: seq<Field>, v: map<string, Val>, c: int)
    requires TypedFields(fs, v)
  {
    exists i :: FirstFieldUnsent(fs, v, i, c)
  }

  /** The members are those of the fields, under their names. */
  ghost predicate Members(fs: seq<Field>, v: map<string, Val>, ms: map<string, Json>)
    requires TypedFields(fs, v)
  {
    && ms.Keys <= Names(fs)
    && forall i :: 0 <= i < |fs| ==> Sent(fs, v, i) == Ok(if fs[i].name in ms then Some(ms[fs[i].name]) else None)
  }

  lemma {:induction false} FieldsSent(fs: seq<Field>, v: map<string, Val>)
    requires TypedFields(fs, v) && WellFormedFields(fs)
    ensures var r := MarshalFields(fs, v); r.Ok? ==> Members(fs, v, r.value)
    ensures var r := MarshalFields(fs, v); r.Err? ==> FailsToSendField(fs, v, r.code)
    decreases |fs|
  {
    if fs != [] {
      var n := |fs| - 1;
      LastNameIsNew(fs);
      NamesAppend(fs);
      assert forall j :: 0 <= j < n ==> fs[..n][j] == fs[j];
      FieldsSent(fs[..n], v);
      match MarshalFields(fs[..n], v)
      case Err(c) =>
        var i :| FirstFieldUnsent(fs[..n], v, i, c);
        assert forall j :: 0 <= j <= i ==> Sent(fs[..n], v, j) == Sent(fs, v, j);
        assert FirstFieldUnsent(fs, v, i, c);
      case Ok(ms) =>
        assert forall j :: 0 <= j < n ==> Sent(fs[..n], v, j) == Sent(fs, v, j);
        if Sent(fs, v, n).Err? {
          assert FirstFieldUnsent(fs, v, n, Sent(fs, v, n).code);
        } else {
          MembersSnoc(fs, v, ms);
        }
    }
  }

  lemma MembersSnoc(fs: seq<Field>, v: map<string, Val>, ms: map<string, Json>)
    requires fs != [] && TypedFields(fs, v) && TypedFields(fs[..|fs| - 1], v) && Members(fs[..|fs| - 1], v, ms)
    requires Names(fs) == Names(fs[..|fs| - 1]) + {fs[|fs| - 1].name} && fs[|fs| - 1].name !in Names(fs[..|fs| - 1])
    requires Sent(fs, v, |fs| - 1).Ok?
    ensures var n := |fs| - 1;
            Members(fs, v, if Sent(fs, v, n).value.Some? then ms[fs[n].name := Sent(fs, v, n).value.value] else ms)
  {
    var n := |fs| - 1;
    var all := if Sent(fs, v, n).value.Some? then ms[fs[n].name := Sent(fs, v, n).value.value] else ms;
    forall i | 0 <= i < n ensures Sent(fs, v, i) == Ok(if fs[i].name in all then Some(all[fs[i].name]) else None) {
      MemberKept(fs, v, ms, i);
    }
  }

  /** The member of an earlier field is not that of the last one. */
  lemma MemberKept(fs: seq<Field>, v: map<string, Val>, ms: map<string, Json>, i: nat)
    requires fs != [] && TypedFields(fs, v) && TypedFields(fs[..|fs| - 1], v) && Members(fs[..|fs| - 1], v, ms)
    requires i < |fs| - 1
    ensures fs[i].name in Names(fs[..|fs| - 1])
    ensures Sent(fs, v, i) == Ok(if fs[i].name in ms then Some(ms[fs[i].name]) else None)
  {
    var init := fs[..|fs| - 1];
    assert init[i] == fs[i] && fs[i] in init;
    assert Sent(init, v, i) == Ok(if init[i].name in ms then Some(ms[init[i].name]) else None);
  }

  /** A struct is sent as the object with one member for each field, but for NULL strings; the first error is returned. */
  lemma StructSent(st: Struct, v: StructVal)
    requires TypedStruct(st, v) && WellFormed(st)
    ensures var r := MarshalStruct(st, v); r.Ok? ==> r.value.JObject? && Members(st.fields, v.fields, r.value.members)
    ensures var r := MarshalStruct(st, v); r.Err? ==> FailsToSendField(st.fields, v.fields, r.code)
  {
    FieldsSent(st.fields, v.fields);
  }

  /** A NULL struct is null both ways, and any other is its object. */
  lemma PointerSent(st: Struct, v: StructVal, j: Json)
    requires TypedStruct(st, v)
    ensures StructToJson(st, None) == Ok(JNull) && JsonToStruct(st, JNull) == Ok(None)
    ensures StructToJson(st, Some(v)) == MarshalStruct(st, v)
    ensures j != JNull ==> JsonToStruct(st, j) == match UnmarshalStruct(st, j) case Ok(w) => Ok(Some(w)) case Err(c) => Err(c)
  {
  }

  // ---------------------------------------------------------------------
  // What is accepted
  // ---------------------------------------------------------------------

  /** The type error of every kind. */
  lemma TypeRefused(k: Kind, j: Json, tag: int)
    ensures WrongType(k, j) ==> UnmarshalKind(k, j, tag) == Err(-32098)
  {
  }

  predicate WrongType(k: Kind, j: Json) {
    match k
    case KInt(_, _) => !j.JInt?
    case KString => !j.JString?
    case KEnum(_) => !j.JString?
    case KPtrArray(_) => !j.JArray? && !j.JNull?
    case KUnion(_, _) => !j.JObject?
  }

  /** Any integer is taken, and converted twice; any string; of the names those that are listed; null for an array. */
  lemma SimpleAccepted(cast: IntType, storage: IntType, i: int, s: string, es: seq<Enumerator>, n: nat, e: Struct)
    ensures UnmarshalKind(KInt(cast, storage), JInt(i), 0) == Ok(VInt(Convert(storage, Convert(cast, i))))
    ensures UnmarshalKind(KString, JString(s), 0) == Ok(VString(Some(s)))
    ensures WellFormedKind(KEnum(es)) && n < |es| ==> UnmarshalKind(KEnum(es), JString(es[n].name), 0) == Ok(VInt(es[n].value))
    ensures (forall k :: 0 <= k < |es| ==> es[k].name != s) ==> UnmarshalKind(KEnum(es), JString(s), 0) == Err(-32097)
    ensures UnmarshalKind(KPtrArray(e), JNull, 0) == Ok(VArray(None))
  {
    if WellFormedKind(KEnum(es)) && n < |es| {
      assert FindName(es, es[n].name) == n;
    }
  }

  /** A union takes the member of its tag, which must be there and be an object; for any other tag it takes any object. */
  lemma UnionAccepted(cases: seq<Case>, tag: string, value: int, ms: map<string, Json>, i: nat)
    requires WellFormedKind(KUnion(cases, tag))
    ensures i < |cases| && cases[i].tag == value ==>
              UnmarshalKind(KUnion(cases, tag), JObject(ms), value)
              == if cases[i].name !in ms then Err(-32099)
                 else if !ms[cases[i].name].JObject? then Err(-32098)
                 else match UnmarshalStruct(cases[i].body, ms[cases[i].name])
                      case Ok(s) => Ok(VUnion(Some(s)))
                      case Err(c) => Err(c)
    ensures (forall j :: 0 <= j < |cases| ==> cases[j].tag != value) ==>
              UnmarshalKind(KUnion(cases, tag), JObject(ms), value) == Ok(VUnion(None))
  {
    if i < |cases| && cases[i].tag == value {
      assert FindCase(cases, value) == i;
    }
  }

  ghost predicate AllAccepted(e: Struct, js: seq<Json>, a: seq<StructVal>) {
    |a| == |js| && forall i :: 0 <= i < |js| ==> UnmarshalStruct(e, js[i]) == Ok(a[i])
  }

  ghost predicate FirstRefused(e: Struct, js: seq<Json>, i: int, c: int) {
    0 <= i < |js| && UnmarshalStruct(e, js[i]) == Err(c) && forall j :: 0 <= j < i ==> UnmarshalStruct(e, js[j]).Ok?
  }

  ghost predicate Refuses(e: Struct, js: seq<Json>, c: int) {
    exists i :: FirstRefused(e, js, i, c)
  }

  /** An array is taken element by element; the first element that is refused gives the error. */
  lemma {:induction false} ArrayAccepted(e: Struct, js: seq<Json>)
    ensures var r := UnmarshalKind(KPtrArray(e), JArray(js), 0); r.Ok? ==> r.value.VArray? && r.value.a.Some? && AllAccepted(e, js, r.value.a.value)
    ensures var r := UnmarshalKind(KPtrArray(e), JArray(js), 0); r.Err? ==> Refuses(e, js, r.code)
  {
    ElementsAccepted(e, js);
  }

  lemma {:induction false} ElementsAccepted(e: Struct, js: seq<Json>)
    ensures var r := UnmarshalArray(e, js); r.Ok? ==> AllAccepted(e, js, r.value)
    ensures var r := UnmarshalArray(e, js); r.Err? ==> Refuses(e, js, r.code)
    decreases |js|
  {
    if js != [] {
      var n := |js| - 1;
      ElementsAccepted(e, js[..n]);
      match UnmarshalArray(e, js[..n])
      case Err(c) =>
        var i :| FirstRefused(e, js[..n], i, c);
        assert forall j :: 0 <= j <= i ==> js[..n][j] == js[j];
        assert FirstRefused(e, js, i, c);
      case Ok(a) =>
        assert forall j :: 0 <= j < n ==> js[..n][j] == js[j];
        if UnmarshalStruct(e, js[n]).Err? {
          assert FirstRefused(e, js, n, UnmarshalStruct(e, js[n]).code);
        }
    }
  }

  /** Field i is read from its member as v says, a union by the tag in v. */
  ghost predicate ReadAs(fs: seq<Field>, obj: Json, v: map<string, Val>, i: int)
    requires 0 <= i < |fs|
  {
    && obj.JObject? && fs[i].name in obj.members && fs[i].name in v
    && UnmarshalKind(fs[i].kind, obj.members[fs[i].name], TagFor(fs[i].kind, v)) == Ok(v[fs[i].name])
  }

  ghost predicate AllRead(fs: seq<Field>, obj: Json, v: map<string, Val>) {
    v.Keys == Names(fs) && forall i :: 0 <= i < |fs| ==> ReadAs(fs, obj, v, i)
  }

  /** The fields before field i are read, and field i is not there, or is refused. */
  ghost predicate StopsAtField(fs: seq<Field>, obj: Json, v: map<string, Val>, i: int, c: int) {
    && 0 <= i < |fs| && (forall j :: 0 <= j < i ==> ReadAs(fs, obj, v, j))
    && if obj.JObject? && fs[i].name in obj.members
       then UnmarshalKind(fs[i].kind, obj.members[fs[i].name], TagFor(fs[i].kind, v)) == Err(c)
       else c == -32099
  }

  ghost predicate RefusesField(fs: seq<Field>, obj: Json, c: int) {
    exists v, i :: StopsAtField(fs, obj, v, i, c)
  }

  lemma {:induction false} FieldsAccepted(fs: seq<Field>, obj: Json)
    requires WellFormedFields(fs)
    ensures var r := UnmarshalFields(fs, obj); r.Ok? ==> AllRead(fs, obj, r.value)
    ensures var r := UnmarshalFields(fs, obj); r.Err? ==> RefusesField(fs, obj, r.code)
    decreases |fs|
  {
    if fs != [] {
      var n := |fs| - 1;
      LastNameIsNew(fs);
      NamesAppend(fs);
      FieldsAccepted(fs[..n], obj);
      match UnmarshalFields(fs[..n], obj)
      case Err(c) =>
        var v, i :| StopsAtField(fs[..n], obj, v, i, c);
        StopsStill(fs, obj, v, i, c);
      case Ok(v) =>
        LastAccepted(fs, obj, v);
    }
  }

  lemma StopsStill(fs: seq<Field>, obj: Json, v: map<string, Val>, i: int, c: int)
    requires fs != [] && StopsAtField(fs[..|fs| - 1], obj, v, i, c)
    ensures StopsAtField(fs, obj, v, i, c)
  {
    var init := fs[..|fs| - 1];
    assert init[i] == fs[i];
    forall j | 0 <= j < i ensures ReadAs(fs, obj, v, j) {
      assert ReadAs(init, obj, v, j) && init[j] == fs[j];
    }
  }

  lemma LastAccepted(fs: seq<Field>, obj: Json, v: map<string, Val>)
    requires fs != [] && WellFormedFields(fs) && UnmarshalFields(fs[..|fs| - 1], obj) == Ok(v)
    requires AllRead(fs[..|fs| - 1], obj, v)
    requires Names(fs) == Names(fs[..|fs| - 1]) + {fs[|fs| - 1].name} && fs[|fs| - 1].name !in Names(fs[..|fs| - 1])
    ensures var r := UnmarshalFields(fs, obj); r.Ok? ==> AllRead(fs, obj, r.value)
    ensures var r := UnmarshalFields(fs, obj); r.Err? ==> StopsAtField(fs, obj, v, |fs| - 1, r.code)
  {
    var n, f := |fs| - 1, fs[|fs| - 1];
    forall j | 0 <= j < n ensures ReadAs(fs, obj, v, j) {
      assert ReadAs(fs[..n], obj, v, j) && fs[..n][j] == fs[j];
    }
    if UnmarshalFields(fs, obj).Ok? {
      AllReadSnoc(fs, obj, v, UnmarshalFields(fs, obj).value);
    }
  }

  lemma AllReadSnoc(fs: seq<Field>, obj: Json, v: map<string, Val>, w: map<string, Val>)
    requires fs != [] && WellFormedFields(fs) && v.Keys == Names(fs[..|fs| - 1]) && Extends(v, w, fs[|fs| - 1].name)
    requires Names(fs) == Names(fs[..|fs| - 1]) + {fs[|fs| - 1].name}
    requires forall j :: 0 <= j < |fs| - 1 ==> ReadAs(fs, obj, v, j)
    requires var f := fs[|fs| - 1];
             obj.JObject? && f.name in obj.members && UnmarshalKind(f.kind, obj.members[f.name], TagFor(f.kind, v)) == Ok(w[f.name])
    ensures AllRead(fs, obj, w)
  {
    forall j | 0 <= j < |fs| ensures ReadAs(fs, obj, w, j) {
      if j < |fs| - 1 {
        ReadStays(fs, obj, v, w, j);
      } else {
        SameTag(fs, v, w, j);
      }
    }
  }

  /** The map w has one member more. */
  ghost predicate Extends(v: map<string, Val>, w: map<string, Val>, name: string) {
    name !in v && name in w && v == w - {name}
  }

  lemma SameTag(fs: seq<Field>, v: map<string, Val>, w: map<string, Val>, i: nat)
    requires fs != [] && WellFormedFields(fs) && i < |fs| && v.Keys == Names(fs[..|fs| - 1])
    requires Extends(v, w, fs[|fs| - 1].name)
    ensures TagFor(fs[i].kind, v) == TagFor(fs[i].kind, w)
  {
    if fs[i].kind.KUnion? {
      assert TagBefore(fs, i);
      var j :| 0 <= j < i && fs[j].name == fs[i].kind.tag && (fs[j].kind.KEnum? || fs[j].kind.KInt?);
      assert fs[..|fs| - 1][j] == fs[j] && fs[j] in fs[..|fs| - 1];
      assert fs[j].name in v;
    }
  }

  lemma ReadStays(fs: seq<Field>, obj: Json, v: map<string, Val>, w: map<string, Val>, j: nat)
    requires fs != [] && WellFormedFields(fs) && j < |fs| - 1 && ReadAs(fs, obj, v, j) && v.Keys == Names(fs[..|fs| - 1])
    requires Extends(v, w, fs[|fs| - 1].name)
    ensures ReadAs(fs, obj, w, j)
  {
    SameTag(fs, v, w, j);
  }

  /**
    A struct is read field by field from the members of their names, in the order
    of the schema, whatever other members there are; the first field that is
    missing or refused gives the error.
   */
  lemma StructAccepted(st: Struct, j: Json)
    requires WellFormed(st)
    ensures var r := UnmarshalStruct(st, j); r.Ok? ==> AllRead(st.fields, j, r.value.fields)
    ensures var r := UnmarshalStruct(st, j); r.Err? ==> RefusesField(st.fields, j, r.code)
  {
    FieldsAccepted(st.fields, j);
  }

}
