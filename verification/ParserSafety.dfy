/** What the parsers guarantee on arbitrary input, and the exact domain of the round trip. */
module ParserSafety {
  import opened Wrappers
  import opened Lexemes
  import opened Structs
  import opened Printer
  import opened Parser
  import opened RoundTrip
  import Balance

  /** Typed, and without nil slice elements where `nn` asks for it. */
  ghost predicate Good(c: Codec, nn: bool, o: Obj) {
    Typed(c, o) && (nn ==> NoNil(o))
  }

  ghost predicate GoodValue(c: Codec, nn: bool, k: Kind, v: Value) {
    TypedValue(c, k, v) && (nn ==> NoNilValue(v))
  }

  ghost predicate GoodPointer(c: Codec, nn: bool, t: TypeName, p: Pointer) {
    TypedPointer(c, t, p) && (nn ==> NoNilPointer(p))
  }

  lemma ZeroIsGood(c: Codec, t: TypeName)
    ensures Zero(c, t).typ == t && Good(c, true, Zero(c, t))
  {
  }

  lemma SetFieldGood(c: Codec, nn: bool, o: Obj, i: nat, v: Value)
    requires Good(c, nn, o) && i < |o.fields| && GoodValue(c, nn, c.fields(o.typ)[i].kind, v)
    ensures Good(c, nn, SetField(o, i, v))
  {
  }

  /** Whatever the input, a parser that starts from a typed struct and accepts leaves a typed
      struct of the same type; and no nil slice element appears where there was none. */
  lemma {:induction false} ParsedObjectIsGood(c: Codec, nn: bool, uj: Obj, state: State, key: Key, r: seq<Lexeme>)
    requires Good(c, nn, uj)
    ensures var res := ParseObject(c, uj, state, key, r);
            res.Ok? ==> res.value.typ == uj.typ && Good(c, nn, res.value)
    decreases |r|, 0
  {
    var s := ScanFrom(r);
    if s.tok.Invalid? || s.tok.Eof? {
    } else if state == WantKey && s.tok.Str? {
      ParsedObjectIsGood(c, nn, uj, WantColon, Lookup(c, c.fields(uj.typ), s.tok.text), s.rest);
    } else if state == WantValue && IsValueToken(s.tok) && key == NoSuchKey {
      if Skip(c, s.tok, s.rest).Some? {
        ParsedObjectIsGood(c, nn, uj, AfterValue, key, Skip(c, s.tok, s.rest).value);
      }
    } else if state == WantValue && IsValueToken(s.tok) && key.KeyAt? && key.index < |uj.fields| {
      var i := key.index;
      var h := HandleField(c, c.fields(uj.typ)[i].kind, uj.fields[i], s.tok, s.rest);
      HandledFieldIsGood(c, nn, c.fields(uj.typ)[i].kind, uj.fields[i], s.tok, s.rest);
      if h.Ok? {
        SetFieldGood(c, nn, uj, i, h.value);
        ParsedObjectIsGood(c, nn, SetField(uj, i, h.value), AfterValue, key, h.rest);
      }
    } else {
      ParsedObjectIsGood(c, nn, uj, WantKey, key, s.rest);
      ParsedObjectIsGood(c, nn, uj, WantValue, key, s.rest);
    }
  }

  lemma {:induction false} HandledFieldIsGood(c: Codec, nn: bool, k: Kind, cur: Value, tok: Lexeme, r: seq<Lexeme>)
    requires GoodValue(c, nn, k, cur)
    ensures var res := HandleField(c, k, cur, tok, r);
            res.Ok? ==> GoodValue(c, nn, k, res.value)
    decreases |r|, 2
  {
    hide ParseObject, ParseStrings, ParsePointers, ParseTags;
    match k
    case PointerKind(t) =>
      ZeroIsGood(c, t);
      assert GoodPointer(c, nn, t, cur.ptr);
      var uj := if cur.ptr.To? then cur.ptr.target else Zero(c, t);
      ParsedObjectIsGood(c, nn, uj, WantKey, Base, r);
      var res := ParseObject(c, uj, WantKey, Base, r);
      assert res.Ok? ==> GoodPointer(c, nn, t, To(res.value));
      assert GoodPointer(c, nn, t, Nil);
    case PointersKind(t) =>
      ParsedPointersAreGood(c, t, [], true, r);
    case _ =>
  }

  lemma AppendGood(c: Codec, t: TypeName, acc: seq<Pointer>, p: Pointer)
    requires TypedElements(c, t, acc) && NoNilElements(acc)
    requires p.To? && p.target.typ == t && Good(c, true, p.target)
    ensures TypedElements(c, t, acc + [p]) && NoNilElements(acc + [p])
    decreases acc
  {
    if acc != [] {
      AppendGood(c, t, acc[1..], p);
      assert (acc + [p])[1..] == acc[1..] + [p];
    }
  }

  lemma {:induction false} ParsedPointersAreGood(c: Codec, t: TypeName, acc: seq<Pointer>, wantVal: bool, r: seq<Lexeme>)
    requires TypedElements(c, t, acc) && NoNilElements(acc)
    ensures var res := ParsePointers(c, t, acc, wantVal, r);
            res.Ok? ==> TypedElements(c, t, res.value) && NoNilElements(res.value)
    decreases |r|, 1
  {
    hide ParseObject, TypedElements, NoNilElements, Zero;
    var s := ScanFrom(r);
    if s.tok.Invalid? || s.tok.EndArray? || s.tok.Null? {
    } else if s.tok.Comma? {
      ParsedPointersAreGood(c, t, acc, wantVal, s.rest);
    } else {
      var o := ParseObject(c, Zero(c, t), WantKey, Base, s.rest);
      ZeroIsGood(c, t);
      ParsedObjectIsGood(c, true, Zero(c, t), WantKey, Base, s.rest);
      if o.Ok? {
        AppendGood(c, t, acc, To(o.value));
        ParsedPointersAreGood(c, t, acc + [To(o.value)], false, o.rest);
      }
    }
  }

  /** Dropping what the text cannot carry never drops a nil slice element. */
  lemma {:induction false} NormKeepsNil(c: Codec, o: Obj)
    requires Typed(c, o) && NoNil(Norm(c, o))
    ensures NoNil(o)
    decreases o
  {
    forall i | 0 <= i < |o.fields| ensures NoNilValue(o.fields[i]) {
      assert Norm(c, o).fields[i] == NormField(c, o.typ, i, o.fields[i]);
      assert TypedValue(c, c.fields(o.typ)[i].kind, o.fields[i]);
      if !Omitted(c.fields(o.typ)[i], o.fields[i]) {
        NormValueKeepsNil(c, c.fields(o.typ)[i].kind, o.fields[i]);
      }
    }
  }

  lemma {:induction false} NormValueKeepsNil(c: Codec, k: Kind, v: Value)
    requires TypedValue(c, k, v) && NoNilValue(NormValue(c, v))
    ensures NoNilValue(v)
    decreases v
  {
    match v
    case PointerV(p) => NormPointerKeepsNil(c, k.target, p);
    case PointersV(Slice(os)) => NormElementsKeepNil(c, k.elem, os);
    case _ =>
  }

  lemma {:induction false} NormPointerKeepsNil(c: Codec, t: TypeName, p: Pointer)
    requires TypedPointer(c, t, p) && NoNilPointer(NormPointer(c, p))
    ensures NoNilPointer(p)
    decreases p
  {
    if p.To? {
      NormKeepsNil(c, p.target);
    }
  }

  lemma {:induction false} NormElementsKeepNil(c: Codec, t: TypeName, os: seq<Pointer>)
    requires TypedElements(c, t, os) && NoNilElements(NormElements(c, os))
    ensures NoNilElements(os)
    decreases os
  {
    if os != [] {
      assert NormElements(c, os)[1..] == NormElements(c, os[1..]);
      NormPointerKeepsNil(c, t, os[0]);
      NormElementsKeepNil(c, t, os[1..]);
    }
  }

  /** The exact domain of the round trip. For every typed value whose maps announce admissible
      iteration orders, printing and parsing gives the value back if and only if no slice in
      it holds a nil pointer. */
  lemma RoundTripIffNoNil(c: Codec, o: Obj, rest: seq<Lexeme>)
    requires Sound(c) && Typed(c, o) && (NoNil(o) ==> Printable(o))
    ensures ParseObject(c, Zero(c, o.typ), MapStart, Base, PrintObject(c, o) + rest) == Ok(Norm(c, o), rest) <==> NoNil(o)
  {
    if NoNil(o) {
      DocumentRoundTrip(c, o, rest);
    } else if ParseObject(c, Zero(c, o.typ), MapStart, Base, PrintObject(c, o) + rest) == Ok(Norm(c, o), rest) {
      ZeroIsGood(c, o.typ);
      ParsedObjectIsGood(c, true, Zero(c, o.typ), MapStart, Base, PrintObject(c, o) + rest);
      NormKeepsNil(c, o);
    }
  }

  /** Whatever text was accepted, the printed form of the result is balanced. */
  lemma AcceptedPrintsBalanced(c: Codec, t: TypeName, r: seq<Lexeme>)
    ensures var res := ParseObject(c, Zero(c, t), MapStart, Base, r);
            res.Ok? ==> Depth(PrintObject(c, res.value)) == 0
  {
    ZeroIsGood(c, t);
    ParsedObjectIsGood(c, true, Zero(c, t), MapStart, Base, r);
    if ParseObject(c, Zero(c, t), MapStart, Base, r).Ok? {
      Balance.BalancedIffNoNil(c, ParseObject(c, Zero(c, t), MapStart, Base, r).value);
    }
  }
}
