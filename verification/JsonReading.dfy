/** What the parsers make of JSON text. */
module JsonReading {
  import opened Wrappers
  import opened Lexemes
  import opened Structs
  import opened Parser
  import opened ParserSafety
  import opened JsonGrammar
  import ArrayLanguage
  import MapLanguage

  // Which JSON values a struct can hold, and as what ------------------------------------------------

  /** The members name fields of the struct, in any order, not all and some more than once, and
      their values fit the fields. */
  predicate FitsObject(c: Codec, t: TypeName, ms: seq<JsonMember>)
    decreases ms
  {
    ms == [] ||
    (var key := Lookup(c, c.fields(t), ms[0].key);
     && key.KeyAt? && key.index < |c.fields(t)| && FitsField(c, c.fields(t)[key.index].kind, ms[0].value)
     && FitsObject(c, t, ms[1..]))
  }

  predicate FitsField(c: Codec, k: Kind, j: Json)
    decreases j
  {
    j == Atom(Null) ||
    match k
    case StringKind => j.Atom? && j.tok.Str?
    case IntKind => j.Atom? && j.tok.Int? && IsInt64(j.tok.value)
    case PointerKind(t) => j.Object? && FitsObject(c, t, j.members)
    case StringsKind => j.Array? && forall i :: 0 <= i < |j.elems| ==> IsStringAtom(j.elems[i])
    case PointersKind(t) => j.Array? && FitsElements(c, t, j.elems)
    case TagsKind => j.Object? && forall i :: 0 <= i < |j.members| ==> IsStringAtom(j.members[i].value)
  }

  predicate IsStringAtom(j: Json) {
    j.Atom? && (j.tok.Str? || j.tok.Null?)
  }

  predicate FitsElements(c: Codec, t: TypeName, es: seq<Json>)
    decreases es
  {
    es == [] || ((es[0] == Atom(Null) || (es[0].Object? && FitsObject(c, t, es[0].members))) && FitsElements(c, t, es[1..]))
  }

  /** `o` after the members have been assigned in order. */
  function Decoded(c: Codec, o: Obj, ms: seq<JsonMember>): Obj
    requires FitsObject(c, o.typ, ms)
    decreases ms
  {
    if ms == [] then o
    else
      var i := Lookup(c, c.fields(o.typ), ms[0].key).index;
      var cur := if i < |o.fields| then o.fields[i] else ZeroValue(c.fields(o.typ)[i].kind);
      var o' := SetField(o, i, DecodedField(c, c.fields(o.typ)[i].kind, cur, ms[0].value));
      Decoded(c, o', ms[1..])
  }

  /** A field that holds `cur`. Strings and numbers ignore a null; a struct is read into the one
      that is there; everything else is replaced. */
  function DecodedField(c: Codec, k: Kind, cur: Value, j: Json): Value
    requires FitsField(c, k, j)
    decreases j
  {
    match k
    case StringKind => if j.tok.Null? then cur else StringV(j.tok.text)
    case IntKind => if j.tok.Null? then cur else IntV(j.tok.value)
    case PointerKind(t) =>
      if j.Atom? then PointerV(Nil)
      else
        var o := if cur.PointerV? && cur.ptr.To? && cur.ptr.target.typ == t then cur.ptr.target else Zero(c, t);
        PointerV(To(Decoded(c, o, j.members)))
    case StringsKind => StringsV(if j.Atom? then None else Some(ArrayLanguage.Strings(ItemsOf(j.elems))))
    case PointersKind(t) => PointersV(if j.Atom? then NilSlice else Slice(DecodedElements(c, t, j.elems)))
    case TagsKind => TagsV(if j.Atom? then None else Some(MapLanguage.Assigned(map[], PairsOf(j.members))), [])
  }

  function DecodedElements(c: Codec, t: TypeName, es: seq<Json>): seq<Pointer>
    requires FitsElements(c, t, es)
    decreases es
  {
    if es == [] then []
    else [if es[0].Atom? then Nil else To(Decoded(c, Zero(c, t), es[0].members))] + DecodedElements(c, t, es[1..])
  }

  function TokOf(j: Json): Lexeme {
    if j.Atom? then j.tok else Null
  }

  function ItemsOf(es: seq<Json>): seq<ArrayLanguage.Item> {
    if es == [] then []
    else [ArrayLanguage.Item(TokOf(es[0]), if es[1..] == [] then 0 else 1)] + ItemsOf(es[1..])
  }

  function PairsOf(ms: seq<JsonMember>): seq<MapLanguage.Pair> {
    if ms == [] then []
    else [MapLanguage.Pair(Str(ms[0].key), TokOf(ms[0].value), if ms[1..] == [] then 0 else 1)] + PairsOf(ms[1..])
  }

  /** No array of structs, at any depth, holds null. */
  predicate NullFree(c: Codec, t: TypeName, ms: seq<JsonMember>)
    requires FitsObject(c, t, ms)
    decreases ms
  {
    ms == [] ||
    (NullFreeField(c, c.fields(t)[Lookup(c, c.fields(t), ms[0].key).index].kind, ms[0].value) && NullFree(c, t, ms[1..]))
  }

  predicate NullFreeField(c: Codec, k: Kind, j: Json)
    requires FitsField(c, k, j)
    decreases j
  {
    match k
    case PointerKind(t) => j.Object? ==> NullFree(c, t, j.members)
    case PointersKind(t) => j.Array? ==> NullFreeElements(c, t, j.elems)
    case _ => true
  }

  predicate NullFreeElements(c: Codec, t: TypeName, es: seq<Json>)
    requires FitsElements(c, t, es)
    decreases es
  {
    es == [] || (es[0].Object? && NullFree(c, t, es[0].members) && NullFreeElements(c, t, es[1..]))
  }

  // How they are read -------------------------------------------------------------------------------

  /** Read as `v`, with `s` left unread, spaces apart. */
  ghost predicate Reads<T>(p: Parsed<T>, v: T, s: seq<Lexeme>) {
    p.Ok? && p.value == v && Compact(p.rest) == s
  }

  /** The struct around an array cannot go on from here. */
  ghost predicate Stuck(c: Codec, left: seq<Lexeme>) {
    forall uj: Obj, key: Key :: ParseObject(c, uj, AfterValue, key, left) == Fail(WrongToken)
  }

  /** A field read as `v`; or not read, if `free` does not hold. */
  ghost predicate FieldRead<T>(c: Codec, p: Parsed<T>, v: T, s: seq<Lexeme>, free: bool) {
    if free then Reads(p, v, s) else p.Fail? || Stuck(c, p.rest)
  }

  /** The members of an object, from `want_key` on. */
  lemma {:induction false} MembersAreRead(c: Codec, uj: Obj, key: Key, ms: seq<JsonMember>, r: seq<Lexeme>, s: seq<Lexeme>)
    requires Typed(c, uj) && FitsObject(c, uj.typ, ms) && Compact(r) == MembersText(ms, s)
    ensures var p := ParseObject(c, uj, WantKey, key, r);
            if NullFree(c, uj.typ, ms) then Reads(p, Decoded(c, uj, ms), s) else p.Fail?
    decreases |r|, 0
  {
    hide Compact, HandleField, Lookup, DecodedField, NullFreeField, FitsField, FieldRead, Typed;
    Next(r);
    if ms != [] {
      var i := Lookup(c, c.fields(uj.typ), ms[0].key).index;
      var k := c.fields(uj.typ)[i].kind;
      TypedField(c, uj, i);
      var more := MoreMembers(ms[1..], s);
      var value := KeyAndColon(c, uj, key, ms[0].key, JsonText(ms[0].value, more), r);
      var tok, after := ScanFrom(value).tok, ScanFrom(value).rest;
      FieldIsRead(c, k, uj.fields[i], ms[0].value, value, more);
      ValueStep(c, uj, i, value);
      var h := HandleField(c, k, uj.fields[i], tok, after);
      FieldOutcome(c, h, DecodedField(c, k, uj.fields[i], ms[0].value), more, NullFreeField(c, k, ms[0].value));
      if h.Ok? && NullFreeField(c, k, ms[0].value) {
        var uj' := SetField(uj, i, h.value);
        HandledFieldIsGood(c, false, k, uj.fields[i], tok, after);
        SetFieldGood(c, false, uj, i, h.value);
        Next(h.rest);
        assert NullFree(c, uj.typ, ms) == NullFree(c, uj.typ, ms[1..]);
        if ms[1..] != [] {
          MembersAreRead(c, uj', KeyAt(i), ms[1..], ScanFrom(h.rest).rest, s);
        }
      }
    }
  }

  lemma TypedField(c: Codec, uj: Obj, i: nat)
    requires Typed(c, uj) && i < |c.fields(uj.typ)|
    ensures i < |uj.fields| && TypedValue(c, c.fields(uj.typ)[i].kind, uj.fields[i])
  {
  }

  lemma FieldOutcome<T>(c: Codec, p: Parsed<T>, v: T, s: seq<Lexeme>, free: bool)
    requires FieldRead(c, p, v, s, free)
    ensures free ==> Reads(p, v, s)
    ensures !free ==> p.Fail? || forall uj: Obj, key: Key :: ParseObject(c, uj, AfterValue, key, p.rest) == Fail(WrongToken)
  {
  }

  /** The walk over a key and its colon. */
  lemma KeyAndColon(c: Codec, uj: Obj, key: Key, k: string, t: seq<Lexeme>, r: seq<Lexeme>) returns (r': seq<Lexeme>)
    requires Compact(r) == [Str(k)] + ([Colon] + t)
    ensures Compact(r') == t && |r'| < |r|
    ensures ParseObject(c, uj, WantKey, key, r) == ParseObject(c, uj, WantValue, Lookup(c, c.fields(uj.typ), k), r')
  {
    hide Lookup;
    Next(r);
    Next(ScanFrom(r).rest);
    r' := ScanFrom(ScanFrom(r).rest).rest;
  }

  lemma ValueStep(c: Codec, uj: Obj, i: nat, r: seq<Lexeme>)
    requires i < |uj.fields| && i < |c.fields(uj.typ)| && IsValueToken(ScanFrom(r).tok)
    ensures var h := HandleField(c, c.fields(uj.typ)[i].kind, uj.fields[i], ScanFrom(r).tok, ScanFrom(r).rest);
            ParseObject(c, uj, WantValue, KeyAt(i), r)
            == if h.Ok? then ParseObject(c, SetField(uj, i, h.value), AfterValue, KeyAt(i), h.rest) else Fail(h.error)
  {
    hide HandleField;
  }

  /** One field. */
  lemma {:induction false} FieldIsRead(c: Codec, k: Kind, cur: Value, j: Json, r: seq<Lexeme>, s: seq<Lexeme>)
    requires TypedValue(c, k, cur) && FitsField(c, k, j) && Compact(r) == JsonText(j, s)
    ensures var tok, rest := ScanFrom(r).tok, ScanFrom(r).rest;
            && IsValueToken(tok)
            && FieldRead(c, HandleField(c, k, cur, tok, rest), DecodedField(c, k, cur, j), s, NullFreeField(c, k, j))
    decreases |r|, 2
  {
    hide Compact, ParseObject, ParseStrings, ParsePointers, ParseTags, Decoded, NullFree, NullFreeElements, Stuck;
    Next(r);
    var rest := ScanFrom(r).rest;
    if j.Atom? {
    } else {
      match k
      case PointerKind(t) =>
        ZeroIsGood(c, t);
        MembersAreRead(c, if cur.ptr.To? then cur.ptr.target else Zero(c, t), Base, j.members, rest, s);
      case StringsKind => StringsAreRead(j.elems, rest, s);
      case PointersKind(t) =>
        ElementsAreRead(c, t, [], true, j.elems, rest, s);
        assert [] + DecodedElements(c, t, j.elems) == DecodedElements(c, t, j.elems);
      case TagsKind => TagsAreRead(j.members, rest, s);
    }
  }

  lemma {:induction false} ElementsAreItems(es: seq<Json>, s: seq<Lexeme>)
    requires forall i :: 0 <= i < |es| ==> IsStringAtom(es[i])
    ensures ArrayLanguage.Items(ItemsOf(es)) && ElementsText(es, s) == ArrayLanguage.Text(ItemsOf(es), [EndArray] + s)
    decreases es
  {
    if es != [] {
      ElementsAreItems(es[1..], s);
      assert ItemsOf(es)[1..] == ItemsOf(es[1..]);
      assert ArrayLanguage.Commas(1, ElementsText(es[1..], s)) == [Comma] + ArrayLanguage.Commas(0, ElementsText(es[1..], s));
    }
  }

  lemma StringsAreRead(es: seq<Json>, r: seq<Lexeme>, s: seq<Lexeme>)
    requires forall i :: 0 <= i < |es| ==> IsStringAtom(es[i])
    requires Compact(r) == ElementsText(es, s)
    ensures Reads(ParseStrings([], true, r), ArrayLanguage.Strings(ItemsOf(es)), s)
  {
    hide Compact, ParseStrings;
    ElementsAreItems(es, s);
    ArrayLanguage.ItemsAreAccepted([], true, 0, ItemsOf(es), r, s);
    assert [] + ArrayLanguage.Strings(ItemsOf(es)) == ArrayLanguage.Strings(ItemsOf(es));
  }

  lemma {:induction false} MembersArePairs(ms: seq<JsonMember>, s: seq<Lexeme>)
    requires forall i :: 0 <= i < |ms| ==> IsStringAtom(ms[i].value)
    ensures MapLanguage.Pairs(PairsOf(ms)) && MembersText(ms, s) == MapLanguage.PairsText(PairsOf(ms), [EndObject] + s)
    decreases ms
  {
    if ms != [] {
      MembersArePairs(ms[1..], s);
      assert PairsOf(ms)[1..] == PairsOf(ms[1..]);
      assert ArrayLanguage.Commas(1, MembersText(ms[1..], s)) == [Comma] + ArrayLanguage.Commas(0, MembersText(ms[1..], s));
    }
  }

  lemma TagsAreRead(ms: seq<JsonMember>, r: seq<Lexeme>, s: seq<Lexeme>)
    requires forall i :: 0 <= i < |ms| ==> IsStringAtom(ms[i].value)
    requires Compact(r) == MembersText(ms, s)
    ensures Reads(ParseTags(map[], true, r), MapLanguage.Assigned(map[], PairsOf(ms)), s)
  {
    hide Compact, ParseTags;
    MembersArePairs(ms, s);
    MapLanguage.PairsAreAccepted(map[], true, 0, PairsOf(ms), r, s);
  }

  /** The elements of an array of structs. */
  lemma {:induction false} ElementsAreRead(c: Codec, t: TypeName, acc: seq<Pointer>, wantVal: bool, es: seq<Json>, r: seq<Lexeme>, s: seq<Lexeme>)
    requires FitsElements(c, t, es) && Compact(r) == ElementsText(es, s)
    ensures FieldRead(c, ParsePointers(c, t, acc, wantVal, r), acc + DecodedElements(c, t, es), s, NullFreeElements(c, t, es))
    decreases |r|, 1
  {
    hide Compact, ParseObject, Decoded, NullFree;
    Next(r);
    var r' := ScanFrom(r).rest;
    if es == [] {
      assert acc + DecodedElements(c, t, es) == acc;
    } else if es[0].Atom? {
      StuckAfterNull(c, t, es, r', s);
    } else {
      ZeroIsGood(c, t);
      hide Typed, Zero, Stuck, FitsObject;
      MembersAreRead(c, Zero(c, t), Base, es[0].members, r', MoreElements(es[1..], s));
      if NullFree(c, t, es[0].members) {
        var o := ParseObject(c, Zero(c, t), WantKey, Base, r');
        assert acc + [To(o.value)] + DecodedElements(c, t, es[1..]) == acc + DecodedElements(c, t, es);
        MoreAreRead(c, t, acc + [To(o.value)], es[1..], o.rest, s);
      }
    }
  }

  lemma {:induction false} MoreAreRead(c: Codec, t: TypeName, acc: seq<Pointer>, es: seq<Json>, r: seq<Lexeme>, s: seq<Lexeme>)
    requires FitsElements(c, t, es) && Compact(r) == MoreElements(es, s)
    ensures FieldRead(c, ParsePointers(c, t, acc, false, r), acc + DecodedElements(c, t, es), s, NullFreeElements(c, t, es))
    decreases |r|, 1
  {
    hide Compact, ParseObject, Decoded, NullFree, Stuck;
    Next(r);
    if es == [] {
      assert acc + DecodedElements(c, t, es) == acc;
    } else {
      ElementsAreRead(c, t, acc, false, es, ScanFrom(r).rest, s);
    }
  }

  /** After a null, neither the bracket nor a comma and the next element will do. */
  lemma StuckAfterNull(c: Codec, t: TypeName, es: seq<Json>, r: seq<Lexeme>, s: seq<Lexeme>)
    requires es != [] && FitsElements(c, t, es) && Compact(r) == MoreElements(es[1..], s)
    ensures Stuck(c, r)
  {
    hide Compact, FitsObject;
    Next(r);
    forall uj: Obj, key: Key ensures ParseObject(c, uj, AfterValue, key, r) == Fail(WrongToken) {
      if es[1..] != [] {
        FirstOfElement(c, t, es[1..], s);
        Next(ScanFrom(r).rest);
        assert ParseObject(c, uj, WantKey, key, ScanFrom(r).rest) == Fail(WrongToken);
      }
    }
  }

  lemma FirstOfElement(c: Codec, t: TypeName, es: seq<Json>, s: seq<Lexeme>)
    requires es != [] && FitsElements(c, t, es)
    ensures var text := ElementsText(es, s); text != [] && (text[0] == BeginObject || text[0] == Null)
  {
  }

  /** JSON text, spaces anywhere between its tokens, that names fields of the struct only and fits
      them, is read as its value, with what follows left unread, if and only if no array of structs
      in it, at any depth, holds null; with such a null it is refused. */
  lemma JsonIsReadIffNullFree(c: Codec, uj: Obj, ms: seq<JsonMember>, r: seq<Lexeme>, s: seq<Lexeme>)
    requires Typed(c, uj) && FitsObject(c, uj.typ, ms) && Compact(r) == JsonText(Object(ms), s)
    ensures var p := ParseObject(c, uj, MapStart, Base, r);
            && (Reads(p, Decoded(c, uj, ms), s) <==> NullFree(c, uj.typ, ms))
            && (p.Fail? <==> !NullFree(c, uj.typ, ms))
  {
    hide Compact, Decoded, NullFree, FitsObject, Typed;
    Next(r);
    MembersAreRead(c, uj, Base, ms, ScanFrom(r).rest, s);
  }
}
