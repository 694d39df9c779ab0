/** Go struct values and the tables from which their codec is generated. */
module Structs {
  import opened Wrappers
  import opened Lexemes

  /** The struct types of the Envoy v1 discovery documents. */
  datatype TypeName =
    | CDSResult | EnvoyCluster | EnvoyFilter | EnvoyFilterConfig | EnvoyHTTPVirtualHost
    | EnvoyListener | EnvoyRoute | EnvoyRouteConfig | EnvoyRouteDecorator | EnvoyService
    | EnvoyTCPRoute | EnvoyTracingConfig | LDSResult | SDSResult

  /** The Go type of a field: string, a 64-bit integer, *T, []string, []*T, map[string]string. */
  datatype Kind =
    | StringKind | IntKind | PointerKind(target: TypeName)
    | StringsKind | PointersKind(elem: TypeName) | TagsKind

  /** A struct field with its JSON key and its `omitempty` mark. */
  datatype Field = Field(key: string, kind: Kind, omitEmpty: bool)

  /** What the generated code is a function of: the fields of each type in declaration order,
      and the two parts of the lexer library the text of which is not part of this model.
      `fold(key, kn)` is the case-folding comparison the generator chose for `key`;
      `skip(tok, rest)` is the number of lexemes after `tok` that skipping the value started
      by `tok` consumes, None if that fails. */
  datatype Codec = Codec(
    fields: TypeName -> seq<Field>,
    fold: (string, string) -> bool,
    skip: (Lexeme, seq<Lexeme>) -> Option<nat>)

  /** A field value. None, Nil and NilSlice are Go's nil. In `TagsV`, `visit` is the order in which the next
      `range` over the map visits its keys: the runtime's choice, not part of the Go value. */
  datatype Value =
    | StringV(s: string)
    | IntV(n: int)
    | PointerV(ptr: Pointer)
    | StringsV(ss: Option<seq<string>>)
    | PointersV(objs: Pointers)
    | TagsV(tags: Option<map<string, string>>, visit: seq<string>)

  /** A struct: its type and the values of its fields, in declaration order. */
  datatype Obj = Obj(typ: TypeName, fields: seq<Value>)

  datatype Pointer = Nil | To(target: Obj)

  datatype Pointers = NilSlice | Slice(elems: seq<Pointer>)

  predicate IsInt64(n: int) {
    -0x8000_0000_0000_0000 <= n < 0x8000_0000_0000_0000
  }

  /** `o` is a value that the Go compiler admits for its type. */
  ghost predicate Typed(c: Codec, o: Obj)
    decreases o
  {
    && |o.fields| == |c.fields(o.typ)|
    && forall i :: 0 <= i < |o.fields| ==> TypedValue(c, c.fields(o.typ)[i].kind, o.fields[i])
  }

  ghost predicate TypedValue(c: Codec, k: Kind, v: Value)
    decreases v
  {
    match k
    case StringKind => v.StringV?
    case IntKind => v.IntV? && IsInt64(v.n)
    case PointerKind(t) =>
      v.PointerV? && TypedPointer(c, t, v.ptr)
    case StringsKind => v.StringsV?
    case PointersKind(t) =>
      v.PointersV? && (v.objs.Slice? ==> TypedElements(c, t, v.objs.elems))
    case TagsKind => v.TagsV?
  }

  ghost predicate TypedPointer(c: Codec, t: TypeName, p: Pointer)
    decreases p
  {
    p.To? ==> p.target.typ == t && Typed(c, p.target)
  }

  ghost predicate TypedElements(c: Codec, t: TypeName, os: seq<Pointer>)
    decreases os
  {
    os != [] ==> TypedPointer(c, t, os[0]) && TypedElements(c, t, os[1..])
  }

  /** No slice anywhere in `o` holds a nil pointer. */
  ghost predicate NoNil(o: Obj)
    decreases o
  {
    forall i :: 0 <= i < |o.fields| ==> NoNilValue(o.fields[i])
  }

  ghost predicate NoNilValue(v: Value)
    decreases v
  {
    match v
    case PointerV(p) => NoNilPointer(p)
    case PointersV(os) => os.Slice? ==> NoNilElements(os.elems)
    case _ => true
  }

  ghost predicate NoNilPointer(p: Pointer)
    decreases p
  {
    p.To? ==> NoNil(p.target)
  }

  ghost predicate NoNilElements(os: seq<Pointer>)
    decreases os
  {
    os != [] ==> os[0].To? && NoNilPointer(os[0]) && NoNilElements(os[1..])
  }

  /** `o` can be printed as a document: no slice holds a nil pointer, and the announced
      iteration order of every map is one that the runtime may take. */
  ghost predicate Printable(o: Obj)
    decreases o
  {
    forall i :: 0 <= i < |o.fields| ==> PrintableValue(o.fields[i])
  }

  ghost predicate PrintableValue(v: Value)
    decreases v
  {
    match v
    case PointerV(p) => PrintablePointer(p)
    case PointersV(os) => os.Slice? ==> PrintableElements(os.elems)
    case TagsV(m, visit) => m.Some? ==> IsRange(visit, m.value)
    case _ => true
  }

  ghost predicate PrintablePointer(p: Pointer)
    decreases p
  {
    p.To? ==> Printable(p.target)
  }

  ghost predicate PrintableElements(os: seq<Pointer>)
    decreases os
  {
    os != [] ==> os[0].To? && PrintablePointer(os[0]) && PrintableElements(os[1..])
  }

  /** Go's zero value of a field and of a struct. */
  function ZeroValue(k: Kind): Value {
    match k
    case StringKind => StringV("")
    case IntKind => IntV(0)
    case PointerKind(_) => PointerV(Nil)
    case StringsKind => StringsV(None)
    case PointersKind(_) => PointersV(NilSlice)
    case TagsKind => TagsV(None, [])
  }

  function Zero(c: Codec, t: TypeName): Obj {
    var fs := c.fields(t);
    Obj(t, seq(|fs|, i requires 0 <= i < |fs| => ZeroValue(fs[i].kind)))
  }

  /** The test with which the printer leaves an `omitempty` field out. */
  predicate Omitted(f: Field, v: Value) {
    f.omitEmpty &&
    match v
    case StringV(s) => s == ""
    case PointerV(p) => p.Nil?
    case StringsV(ss) => ss.None? || ss.value == []
    case PointersV(os) => os.NilSlice? || os.elems == []
    case _ => false
  }

  /** The part of `o` that the text carries: an empty `omitempty` slice becomes nil, and the
      iteration order of a map is forgotten. Everything else is kept. */
  function Norm(c: Codec, o: Obj): Obj
    decreases o
  {
    Obj(o.typ, seq(|o.fields|, i requires 0 <= i < |o.fields| => NormField(c, o.typ, i, o.fields[i])))
  }

  function NormField(c: Codec, t: TypeName, i: nat, v: Value): Value
    decreases v, 1
  {
    if i < |c.fields(t)| && Omitted(c.fields(t)[i], v) then ZeroValue(c.fields(t)[i].kind)
    else NormValue(c, v)
  }

  function NormValue(c: Codec, v: Value): Value
    decreases v, 0
  {
    match v
    case PointerV(p) => PointerV(NormPointer(c, p))
    case PointersV(Slice(os)) => PointersV(Slice(NormElements(c, os)))
    case TagsV(m, _) => TagsV(m, [])
    case _ => v
  }

  function NormPointer(c: Codec, p: Pointer): Pointer
    decreases p
  {
    if p.To? then To(Norm(c, p.target)) else Nil
  }

  function NormElements(c: Codec, os: seq<Pointer>): seq<Pointer>
    decreases os
  {
    if os == [] then []
    else [NormPointer(c, os[0])] + NormElements(c, os[1..])
  }

  predicate HasOmitEmpty(fs: seq<Field>) {
    exists i :: 0 <= i < |fs| && fs[i].omitEmpty
  }

  /** What the generator guarantees of a table: keys are distinct and not empty, and only
      strings, pointers and slices are marked `omitempty`. */
  ghost predicate SoundFields(fs: seq<Field>) {
    && (forall i, j :: 0 <= i < j < |fs| ==> fs[i].key != fs[j].key)
    && (forall i :: 0 <= i < |fs| ==> fs[i].key != "")
    && (forall i :: 0 <= i < |fs| && fs[i].omitEmpty ==> !fs[i].kind.IntKind? && !fs[i].kind.TagsKind?)
  }

  ghost predicate Sound(c: Codec) {
    forall t: TypeName :: SoundFields(c.fields(t))
  }
}
