/** Exactly which values come back from their text as they were. */
module ExactRoundTrips {
  import opened Wrappers
  import opened Lexemes
  import opened Structs
  import opened Printer
  import opened Parser
  import opened RoundTrip
  import opened ParserSafety

  /** The Go value of `o`: the iteration order of the next `range` is no part of it. */
  function Plain(o: Obj): Obj
    decreases o
  {
    Obj(o.typ, seq(|o.fields|, i requires 0 <= i < |o.fields| => PlainValue(o.fields[i])))
  }

  function PlainValue(v: Value): Value
    decreases v
  {
    match v
    case PointerV(p) => PointerV(PlainPointer(p))
    case PointersV(Slice(os)) => PointersV(Slice(PlainElements(os)))
    case TagsV(m, _) => TagsV(m, [])
    case _ => v
  }

  function PlainPointer(p: Pointer): Pointer
    decreases p
  {
    if p.To? then To(Plain(p.target)) else Nil
  }

  function PlainElements(os: seq<Pointer>): seq<Pointer>
    decreases os
  {
    if os == [] then [] else [PlainPointer(os[0])] + PlainElements(os[1..])
  }

  /** An `omitempty` slice that is empty but not nil. */
  predicate EmptyOmitted(f: Field, v: Value) {
    f.omitEmpty && (v == StringsV(Some([])) || v == PointersV(Slice([])))
  }

  /** There is none in `o`, at any depth. */
  ghost predicate NoneEmptyOmitted(c: Codec, o: Obj)
    decreases o
  {
    forall i :: 0 <= i < |o.fields| && i < |c.fields(o.typ)| ==>
      !EmptyOmitted(c.fields(o.typ)[i], o.fields[i]) && NoneInValue(c, o.fields[i])
  }

  ghost predicate NoneInValue(c: Codec, v: Value)
    decreases v
  {
    match v
    case PointerV(p) => NoneInPointer(c, p)
    case PointersV(os) => os.Slice? ==> NoneInElements(c, os.elems)
    case _ => true
  }

  ghost predicate NoneInPointer(c: Codec, p: Pointer)
    decreases p
  {
    p.To? ==> NoneEmptyOmitted(c, p.target)
  }

  ghost predicate NoneInElements(c: Codec, os: seq<Pointer>)
    decreases os
  {
    os != [] ==> NoneInPointer(c, os[0]) && NoneInElements(c, os[1..])
  }

  /** What the text carries is the whole value if and only if no empty slice is omitted. */
  lemma {:induction false} NormIsPlainIff(c: Codec, o: Obj)
    requires Typed(c, o)
    ensures Norm(c, o) == Plain(o) <==> NoneEmptyOmitted(c, o)
    decreases o, 1
  {
    hide NormField, PlainValue, EmptyOmitted, NoneInValue, TypedValue;
    forall i | 0 <= i < |o.fields|
      ensures NormField(c, o.typ, i, o.fields[i]) == PlainValue(o.fields[i]) <==>
              !EmptyOmitted(c.fields(o.typ)[i], o.fields[i]) && NoneInValue(c, o.fields[i])
    {
      FieldIsPlainIff(c, o.typ, i, o.fields[i]);
    }
    assert forall i :: 0 <= i < |o.fields| ==> Norm(c, o).fields[i] == NormField(c, o.typ, i, o.fields[i]);
    assert forall i :: 0 <= i < |o.fields| ==> Plain(o).fields[i] == PlainValue(o.fields[i]);
  }

  lemma {:induction false} FieldIsPlainIff(c: Codec, t: TypeName, i: nat, v: Value)
    requires i < |c.fields(t)| && TypedValue(c, c.fields(t)[i].kind, v)
    ensures NormField(c, t, i, v) == PlainValue(v) <==> !EmptyOmitted(c.fields(t)[i], v) && NoneInValue(c, v)
    decreases v, 1
  {
    ValueIsPlainIff(c, c.fields(t)[i].kind, v);
    hide NormValue, TypedValue;
  }

  lemma {:induction false} ValueIsPlainIff(c: Codec, k: Kind, v: Value)
    requires TypedValue(c, k, v)
    ensures NormValue(c, v) == PlainValue(v) <==> NoneInValue(c, v)
    decreases v, 0
  {
    match v
    case PointerV(p) => PointerIsPlainIff(c, k.target, p);
    case PointersV(Slice(os)) => ElementsArePlainIff(c, k.elem, os);
    case _ =>
  }

  lemma {:induction false} PointerIsPlainIff(c: Codec, t: TypeName, p: Pointer)
    requires TypedPointer(c, t, p)
    ensures NormPointer(c, p) == PlainPointer(p) <==> NoneInPointer(c, p)
    decreases p
  {
    if p.To? {
      NormIsPlainIff(c, p.target);
    }
  }

  lemma {:induction false} ElementsArePlainIff(c: Codec, t: TypeName, os: seq<Pointer>)
    requires TypedElements(c, t, os)
    ensures NormElements(c, os) == PlainElements(os) <==> NoneInElements(c, os)
    decreases os
  {
    if os != [] {
      PointerIsPlainIff(c, t, os[0]);
      ElementsArePlainIff(c, t, os[1..]);
      assert NormElements(c, os)[0] == NormPointer(c, os[0]) && NormElements(c, os)[1..] == NormElements(c, os[1..]);
      assert PlainElements(os)[0] == PlainPointer(os[0]) && PlainElements(os)[1..] == PlainElements(os[1..]);
    }
  }

  /** Forgetting the iteration orders keeps nil elements. */
  lemma {:induction false} PlainKeepsNil(o: Obj)
    requires NoNil(Plain(o))
    ensures NoNil(o)
    decreases o
  {
    forall i | 0 <= i < |o.fields| ensures NoNilValue(o.fields[i]) {
      assert Plain(o).fields[i] == PlainValue(o.fields[i]);
      PlainValueKeepsNil(o.fields[i]);
    }
  }

  lemma {:induction false} PlainValueKeepsNil(v: Value)
    requires NoNilValue(PlainValue(v))
    ensures NoNilValue(v)
    decreases v
  {
    match v
    case PointerV(p) => PlainPointerKeepsNil(p);
    case PointersV(Slice(os)) => PlainElementsKeepNil(os);
    case _ =>
  }

  lemma {:induction false} PlainPointerKeepsNil(p: Pointer)
    requires NoNilPointer(PlainPointer(p))
    ensures NoNilPointer(p)
    decreases p
  {
    if p.To? {
      PlainKeepsNil(p.target);
    }
  }

  lemma {:induction false} PlainElementsKeepNil(os: seq<Pointer>)
    requires NoNilElements(PlainElements(os))
    ensures NoNilElements(os)
    decreases os
  {
    if os != [] {
      assert PlainElements(os)[1..] == PlainElements(os[1..]);
      PlainPointerKeepsNil(os[0]);
      PlainElementsKeepNil(os[1..]);
    }
  }

  /** The law of the codec, with its exact domain. Printing a value and parsing the text gives the
      same Go value, and leaves what follows the text, if and only if at no depth a slice holds
      nil or an `omitempty` slice is empty without being nil. */
  lemma SameValueIff(c: Codec, o: Obj, rest: seq<Lexeme>)
    requires Sound(c) && Typed(c, o) && (NoNil(o) ==> Printable(o))
    ensures ParseObject(c, Zero(c, o.typ), MapStart, Base, PrintObject(c, o) + rest) == Ok(Plain(o), rest) <==>
            NoNil(o) && NoneEmptyOmitted(c, o)
  {
    hide ParseObject, PrintObject, Norm, Plain, NoneEmptyOmitted;
    var text := PrintObject(c, o) + rest;
    if NoNil(o) {
      DocumentRoundTrip(c, o, rest);
      NormIsPlainIff(c, o);
    } else if ParseObject(c, Zero(c, o.typ), MapStart, Base, text) == Ok(Plain(o), rest) {
      ZeroIsGood(c, o.typ);
      ParsedObjectIsGood(c, true, Zero(c, o.typ), MapStart, Base, text);
      PlainKeepsNil(o);
    }
  }
}
