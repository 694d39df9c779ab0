/** Bracket balance of the printed text, for every value, nil slice elements included. */
module Balance {
  import opened Wrappers
  import opened Lexemes
  import opened Structs
  import opened Printer

  /** Does printing `v` meet a nil slice element directly in `v`? */
  predicate HasNil(v: Value) {
    v.PointersV? && v.objs.Slice? && Nil in v.objs.elems
  }

  /** The number of arrays that printing `o` cuts short. What follows a cut array in the same
      struct is not printed and not counted. */
  function Cuts(c: Codec, o: Obj): nat
    decreases o, |o.fields| + 1
  {
    CutsFrom(c, o, 0)
  }

  function CutsFrom(c: Codec, o: Obj, i: nat): nat
    decreases o, |o.fields| - i
  {
    if i >= |c.fields(o.typ)| || i >= |o.fields| then 0
    else if Omitted(c.fields(o.typ)[i], o.fields[i]) then CutsFrom(c, o, i + 1)
    else CutsValue(c, o.fields[i]) + (if HasNil(o.fields[i]) then 0 else CutsFrom(c, o, i + 1))
  }

  function CutsValue(c: Codec, v: Value): nat
    decreases v
  {
    match v
    case PointerV(p) => CutsPointer(c, p)
    case PointersV(Slice(os)) => CutsPointers(c, os)
    case _ => 0
  }

  function CutsPointer(c: Codec, p: Pointer): nat
    decreases p
  {
    if p.Nil? then 0 else Cuts(c, p.target)
  }

  function CutsPointers(c: Codec, os: seq<Pointer>): nat
    decreases os
  {
    if os == [] then 0
    else if os[0].Nil? then 1
    else CutsPointer(c, os[0]) + CutsPointers(c, os[1..])
  }

  /** The depth at which the printed text ends is twice the number of arrays cut short: each
      cut loses its own closing bracket and the closing brace of its struct. */
  lemma {:induction false} DepthOfObject(c: Codec, o: Obj)
    ensures Depth(PrintObject(c, o)) == 2 * Cuts(c, o)
    decreases o, |o.fields| + 1
  {
    var ms := PrintMembers(c, o, 0, true).out;
    var pad := if HasOmitEmpty(c.fields(o.typ)) && ms != [EndObject] then [Space] else [];
    DepthOfMembers(c, o, 0, true);
    DepthConcat([BeginObject] + pad, ms);
    DepthConcat([BeginObject], pad);
  }

  lemma {:induction false} DepthOfMembers(c: Codec, o: Obj, i: nat, first: bool)
    ensures Depth(PrintMembers(c, o, i, first).out) == 2 * CutsFrom(c, o, i) - 1
    decreases o, |o.fields| - i
  {
    var fs := c.fields(o.typ);
    if i >= |fs| || i >= |o.fields| {
    } else if Omitted(fs[i], o.fields[i]) {
      DepthOfMembers(c, o, i + 1, first);
    } else {
      var v := PrintValue(c, o.fields[i]);
      var head := (if first then [] else [Comma]) + [Str(fs[i].key), Colon];
      DepthFlat(head);
      DepthOfValue(c, o.fields[i]);
      DepthConcat(head, v.out);
      if !v.cut {
        DepthOfMembers(c, o, i + 1, false);
        DepthConcat(head + v.out, PrintMembers(c, o, i + 1, false).out);
      }
    }
  }

  lemma {:induction false} DepthOfValue(c: Codec, v: Value)
    ensures PrintValue(c, v).cut == HasNil(v)
    ensures Depth(PrintValue(c, v).out) == 2 * CutsValue(c, v) - (if HasNil(v) then 1 else 0)
    decreases v
  {
    match v
    case PointerV(p) => DepthOfPointer(c, p);
    case StringsV(Some(ss)) =>
      DepthOfStrings(ss, true);
      DepthConcat([BeginArray], PrintStrings(ss, true));
    case PointersV(Slice(os)) =>
      DepthOfPointers(c, os, true);
      DepthConcat([BeginArray], PrintPointers(c, os, true).out);
    case TagsV(Some(m), visit) => DepthOfTagsText(m, visit);
    case _ =>
  }

  lemma DepthOfTagsText(m: map<string, string>, visit: seq<string>)
    ensures Depth(TagsText(m, visit)) == 0
  {
    var pad := if visit == [] then [] else [Space];
    DepthOfTags(m, visit, true);
    DepthConcat([BeginObject] + pad, PrintTags(m, visit, true));
    DepthConcat([BeginObject], pad);
  }

  lemma {:induction false} DepthOfPointer(c: Codec, p: Pointer)
    ensures Depth(PrintPointer(c, p)) == 2 * CutsPointer(c, p)
    decreases p
  {
    if p.To? {
      DepthOfObject(c, p.target);
    }
  }

  lemma {:induction false} DepthOfPointers(c: Codec, os: seq<Pointer>, first: bool)
    ensures PrintPointers(c, os, first).cut == (Nil in os)
    ensures Depth(PrintPointers(c, os, first).out) == 2 * CutsPointers(c, os) - (if Nil in os then 2 else 1)
    decreases os
  {
    var sep := if first then [] else [Comma];
    if os == [] {
    } else if os[0].Nil? {
      DepthConcat(sep, [Null]);
    } else {
      hide Depth, PrintPointer, CutsPointer;
      DepthFlat(sep);
      DepthOfPointer(c, os[0]);
      DepthOfPointers(c, os[1..], false);
      DepthConcat(sep, PrintPointer(c, os[0]));
      DepthConcat(sep + PrintPointer(c, os[0]), PrintPointers(c, os[1..], false).out);
      assert Nil in os <==> Nil in os[1..];
    }
  }

  lemma {:induction false} DepthOfStrings(ss: seq<string>, first: bool)
    ensures Depth(PrintStrings(ss, first)) == -1
  {
    if ss != [] {
      var elem := (if first then [] else [Comma]) + [Str(ss[0])];
      DepthFlat(elem);
      DepthOfStrings(ss[1..], false);
      DepthConcat(elem, PrintStrings(ss[1..], false));
    }
  }

  lemma {:induction false} DepthOfTags(m: map<string, string>, visit: seq<string>, first: bool)
    ensures Depth(PrintTags(m, visit, first)) == -1
  {
    if visit != [] {
      var member := (if first then [] else [Comma]) + [Str(visit[0]), Colon, Str(TagAt(m, visit[0]))];
      DepthFlat(member);
      DepthOfTags(m, visit[1..], false);
      DepthConcat(member, PrintTags(m, visit[1..], false));
    }
  }

  /** No array is cut short exactly when no slice, reached or hidden behind another cut, holds
      a nil pointer. */
  lemma {:induction false} NoCutsIffNoNil(c: Codec, o: Obj)
    requires Typed(c, o)
    ensures Cuts(c, o) == 0 <==> NoNil(o)
    decreases o, |o.fields| + 1
  {
    NoCutsFromIffNoNil(c, o, 0);
  }

  lemma {:induction false} NoCutsFromIffNoNil(c: Codec, o: Obj, i: nat)
    requires Typed(c, o) && i <= |o.fields|
    ensures CutsFrom(c, o, i) == 0 <==> forall j :: i <= j < |o.fields| ==> NoNilValue(o.fields[j])
    decreases o, |o.fields| - i
  {
    if i < |o.fields| {
      NoCutsFromIffNoNil(c, o, i + 1);
      assert TypedValue(c, c.fields(o.typ)[i].kind, o.fields[i]);
      NoCutsValueIffNoNil(c, c.fields(o.typ)[i].kind, o.fields[i]);
    }
  }

  lemma {:induction false} NoCutsValueIffNoNil(c: Codec, k: Kind, v: Value)
    requires TypedValue(c, k, v)
    ensures CutsValue(c, v) == 0 <==> NoNilValue(v)
    ensures HasNil(v) ==> CutsValue(c, v) > 0
    decreases v
  {
    match v
    case PointerV(p) => NoCutsPointerIffNoNil(c, k.target, p);
    case PointersV(Slice(os)) => NoCutsPointersIffNoNil(c, k.elem, os);
    case _ =>
  }

  lemma {:induction false} NoCutsPointerIffNoNil(c: Codec, t: TypeName, p: Pointer)
    requires TypedPointer(c, t, p)
    ensures CutsPointer(c, p) == 0 <==> NoNilPointer(p)
    decreases p
  {
    if p.To? {
      NoCutsIffNoNil(c, p.target);
    }
  }

  lemma {:induction false} NoCutsPointersIffNoNil(c: Codec, t: TypeName, os: seq<Pointer>)
    requires TypedElements(c, t, os)
    ensures CutsPointers(c, os) == 0 <==> NoNilElements(os)
    ensures Nil in os ==> CutsPointers(c, os) > 0
    decreases os
  {
    if os != [] {
      NoCutsPointerIffNoNil(c, t, os[0]);
      NoCutsPointersIffNoNil(c, t, os[1..]);
      assert Nil in os <==> os[0] == Nil || Nil in os[1..];
    }
  }

  /** The printed text closes every bracket it opens if and only if no slice holds nil. */
  lemma BalancedIffNoNil(c: Codec, o: Obj)
    requires Typed(c, o)
    ensures Depth(PrintObject(c, o)) == 0 <==> NoNil(o)
  {
    DepthOfObject(c, o);
    NoCutsIffNoNil(c, o);
  }
}
