/** All the texts that the parsers accept, at every depth, for structs with known keys only. */
module LooseText {
  import opened Wrappers
  import opened Lexemes
  import opened Structs
  import opened Parser
  import opened ParserSafety
  import opened JsonReading
  import opened ArrayLanguage
  import opened MapLanguage
  import Suffixes

  /** A struct's text after its opening token: members, and whether a comma follows the last. */
  datatype Doc = Doc(members: seq<DocMember>, comma: bool)

  datatype DocMember = DocMember(key: string, value: DocValue)

  /** A value: a single token; a struct behind its opening token; or one of the three loops, the
      array of structs with the token that ends it. */
  datatype DocValue =
    | Token(tok: Lexeme)
    | Struct(opener: Lexeme, doc: Doc)
    | StringList(items: seq<Item>)
    | StructList(elems: seq<DocElem>, end: Lexeme)
    | TagList(pairs: seq<Pair>)

  /** An element of an array of structs, with its opening token and the commas after it. */
  datatype DocElem = DocElem(opener: Lexeme, doc: Doc, commas: nat)

  /** The text, without spaces, of the members and the closing brace. */
  function DocText(ms: seq<DocMember>, comma: bool, t: seq<Lexeme>): seq<Lexeme>
    decreases ms, 0
  {
    if ms == [] then [EndObject] + t
    else [Str(ms[0].key)] + ([Colon] + ValueText(ms[0].value, MoreText(ms[1..], comma, t)))
  }

  /** The same from behind a value. */
  function MoreText(ms: seq<DocMember>, comma: bool, t: seq<Lexeme>): seq<Lexeme>
    decreases ms, 1
  {
    if ms == [] && !comma then [EndObject] + t else [Comma] + DocText(ms, comma, t)
  }

  function ValueText(v: DocValue, t: seq<Lexeme>): seq<Lexeme>
    decreases v
  {
    match v
    case Token(tok) => [tok] + t
    case Struct(opener, doc) => [opener] + DocText(doc.members, doc.comma, t)
    case StringList(items) => [BeginArray] + Text(items, [EndArray] + t)
    case StructList(es, end) => [BeginArray] + ElemsText(es, [end] + t)
    case TagList(ps) => [BeginObject] + PairsText(ps, [EndObject] + t)
  }

  function ElemsText(es: seq<DocElem>, t: seq<Lexeme>): seq<Lexeme>
    decreases es
  {
    if es == [] then t
    else ElemText(es[0], Commas(es[0].commas, ElemsText(es[1..], t)))
  }

  function ElemText(e: DocElem, t: seq<Lexeme>): seq<Lexeme>
    decreases e
  {
    [e.opener] + DocText(e.doc.members, e.doc.comma, t)
  }

  /** A document behind its opening token. */
  function OpenedText(d: Doc, t: seq<Lexeme>): seq<Lexeme> {
    DocText(d.members, d.comma, t)
  }

  /** The keys are known and the values are of the kinds of their fields. Any value token but null
      opens a struct in a pointer field; and any token that the array loop does not take for
      something else opens one in an array, which ends in a bracket or a null. */
  predicate DocFits(c: Codec, t: TypeName, ms: seq<DocMember>)
    decreases ms
  {
    ms == [] ||
    (var key := Lookup(c, c.fields(t), ms[0].key);
     && key.KeyAt? && key.index < |c.fields(t)| && ValueFits(c, c.fields(t)[key.index].kind, ms[0].value)
     && DocFits(c, t, ms[1..]))
  }

  predicate ValueFits(c: Codec, k: Kind, v: DocValue)
    decreases v
  {
    v == Token(Null) ||
    match k
    case StringKind => v.Token? && v.tok.Str?
    case IntKind => v.Token? && v.tok.Int? && IsInt64(v.tok.value)
    case PointerKind(t) => v.Struct? && IsValueToken(v.opener) && v.opener != Null && DocFits(c, t, v.doc.members)
    case StringsKind => v.StringList? && forall i :: 0 <= i < |v.items| ==> IsElement(v.items[i].elem)
    case PointersKind(t) => v.StructList? && (v.end == EndArray || v.end == Null) && ElemsFit(c, t, v.elems)
    case TagsKind => v.TagList? && forall i :: 0 <= i < |v.pairs| ==> IsElement(v.pairs[i].key) && IsElement(v.pairs[i].value)
  }

  predicate OpensElement(tok: Lexeme) {
    !tok.Space? && !tok.Invalid? && !tok.EndArray? && !tok.Comma? && !tok.Null?
  }

  predicate ElemsFit(c: Codec, t: TypeName, es: seq<DocElem>)
    decreases es
  {
    es == [] || (ElemFits(c, t, es[0]) && ElemsFit(c, t, es[1..]))
  }

  predicate ElemFits(c: Codec, t: TypeName, e: DocElem)
    decreases e
  {
    OpensElement(e.opener) && DocFits(c, t, e.doc.members)
  }

  predicate Fits(c: Codec, t: TypeName, d: Doc) {
    DocFits(c, t, d.members)
  }

  /** `o` after the members have been assigned in order. */
  function DocRead(c: Codec, o: Obj, ms: seq<DocMember>): Obj
    requires DocFits(c, o.typ, ms)
    decreases ms
  {
    if ms == [] then o
    else
      var i := Lookup(c, c.fields(o.typ), ms[0].key).index;
      var cur := if i < |o.fields| then o.fields[i] else ZeroValue(c.fields(o.typ)[i].kind);
      DocRead(c, SetField(o, i, ValueRead(c, c.fields(o.typ)[i].kind, cur, ms[0].value)), ms[1..])
  }

  function ValueRead(c: Codec, k: Kind, cur: Value, v: DocValue): Value
    requires ValueFits(c, k, v)
    decreases v
  {
    match k
    case StringKind => if v.tok.Null? then cur else StringV(v.tok.text)
    case IntKind => if v.tok.Null? then cur else IntV(v.tok.value)
    case PointerKind(t) =>
      if v.Token? then PointerV(Nil)
      else
        var o := if cur.PointerV? && cur.ptr.To? && cur.ptr.target.typ == t then cur.ptr.target else Zero(c, t);
        PointerV(To(DocRead(c, o, v.doc.members)))
    case StringsKind => StringsV(if v.Token? then None else Some(Strings(v.items)))
    case PointersKind(t) => PointersV(if v.Token? then NilSlice else Slice(ElemsRead(c, t, v.elems)))
    case TagsKind => TagsV(if v.Token? then None else Some(Assigned(map[], v.pairs)), [])
  }

  function ElemsRead(c: Codec, t: TypeName, es: seq<DocElem>): seq<Pointer>
    requires ElemsFit(c, t, es)
    decreases es
  {
    if es == [] then [] else [To(ElemRead(c, t, es[0]))] + ElemsRead(c, t, es[1..])
  }

  function ElemRead(c: Codec, t: TypeName, e: DocElem): Obj
    requires ElemFits(c, t, e)
    decreases e
  {
    DocRead(c, Zero(c, t), e.doc.members)
  }

  function Read(c: Codec, o: Obj, d: Doc): Obj
    requires Fits(c, o.typ, d)
  {
    DocRead(c, o, d.members)
  }

  // Every such text is accepted -----------------------------------------------------------------------

  lemma {:induction false} DocIsRead(c: Codec, uj: Obj, key: Key, ms: seq<DocMember>, comma: bool, r: seq<Lexeme>, s: seq<Lexeme>)
    requires Typed(c, uj) && DocFits(c, uj.typ, ms) && Compact(r) == DocText(ms, comma, s)
    ensures Reads(ParseObject(c, uj, WantKey, key, r), DocRead(c, uj, ms), s)
    decreases |r|, 0
  {
    hide Compact, HandleField, Lookup, ValueRead, ValueFits, Typed;
    Next(r);
    if ms != [] {
      var i := Lookup(c, c.fields(uj.typ), ms[0].key).index;
      var k := c.fields(uj.typ)[i].kind;
      TypedField(c, uj, i);
      var more := MoreText(ms[1..], comma, s);
      var value := KeyAndColon(c, uj, key, ms[0].key, ValueText(ms[0].value, more), r);
      var tok, after := ScanFrom(value).tok, ScanFrom(value).rest;
      ValueIsRead(c, k, uj.fields[i], ms[0].value, value, more);
      ValueStep(c, uj, i, value);
      var h := HandleField(c, k, uj.fields[i], tok, after);
      HandledFieldIsGood(c, false, k, uj.fields[i], tok, after);
      SetFieldGood(c, false, uj, i, h.value);
      Next(h.rest);
      if ms[1..] != [] || comma {
        DocIsRead(c, SetField(uj, i, h.value), KeyAt(i), ms[1..], comma, ScanFrom(h.rest).rest, s);
      }
    }
  }

  lemma {:induction false} ValueIsRead(c: Codec, k: Kind, cur: Value, v: DocValue, r: seq<Lexeme>, s: seq<Lexeme>)
    requires TypedValue(c, k, cur) && ValueFits(c, k, v) && Compact(r) == ValueText(v, s)
    ensures var tok, rest := ScanFrom(r).tok, ScanFrom(r).rest;
            IsValueToken(tok) && Reads(HandleField(c, k, cur, tok, rest), ValueRead(c, k, cur, v), s)
    decreases |r|, 2
  {
    hide Compact, ParseObject, ParseStrings, ParsePointers, ParseTags, DocRead;
    Next(r);
    var rest := ScanFrom(r).rest;
    if !v.Token? {
      match k
      case PointerKind(t) =>
        ZeroIsGood(c, t);
        DocIsRead(c, if cur.ptr.To? then cur.ptr.target else Zero(c, t), Base, v.doc.members, v.doc.comma, rest, s);
      case StringsKind =>
        ItemsAreAccepted([], true, 0, v.items, rest, s);
        assert [] + Strings(v.items) == Strings(v.items);
      case PointersKind(t) =>
        ElemsAreRead(c, t, [], true, 0, v.elems, v.end, rest, s);
        assert [] + ElemsRead(c, t, v.elems) == ElemsRead(c, t, v.elems);
      case TagsKind => PairsAreAccepted(map[], true, 0, v.pairs, rest, s);
    }
  }

  lemma {:induction false} ElemsAreRead(c: Codec, t: TypeName, acc: seq<Pointer>, wantVal: bool, n: nat, es: seq<DocElem>, end: Lexeme,
                                        r: seq<Lexeme>, s: seq<Lexeme>)
    requires ElemsFit(c, t, es) && (end == EndArray || end == Null) && (wantVal ==> n == 0)
    requires Compact(r) == Commas(n, ElemsText(es, [end] + s))
    ensures Reads(ParsePointers(c, t, acc, wantVal, r), acc + ElemsRead(c, t, es), s)
    decreases |r|, 1
  {
    hide Compact, ParseObject, DocRead;
    Next(r);
    var r' := ScanFrom(r).rest;
    if n > 0 {
      ElemsAreRead(c, t, acc, false, n - 1, es, end, r', s);
    } else if es == [] {
      assert acc + ElemsRead(c, t, es) == acc;
    } else {
      ZeroIsGood(c, t);
      hide Typed, Zero, DocFits;
      var e := es[0];
      assert ElemFits(c, t, e);
      DocIsRead(c, Zero(c, t), Base, e.doc.members, e.doc.comma, r', Commas(e.commas, ElemsText(es[1..], [end] + s)));
      var o := ParseObject(c, Zero(c, t), WantKey, Base, r');
      assert acc + [To(o.value)] + ElemsRead(c, t, es[1..]) == acc + ElemsRead(c, t, es);
      ElemsAreRead(c, t, acc + [To(o.value)], false, e.commas, es[1..], end, o.rest, s);
    }
  }

  // Nothing else is accepted ----------------------------------------------------------------------------

  /** No unknown member is got past; so whatever is accepted has known keys only. */
  ghost predicate SkipsNothing(c: Codec) {
    forall tok: Lexeme, r: seq<Lexeme> :: c.skip(tok, r) == None
  }

  /** A text of this kind, read as this. */
  ghost predicate IsDoc(c: Codec, uj: Obj, d: Doc, r: seq<Lexeme>, p: Parsed<Obj>) {
    && p.Ok? && DocFits(c, uj.typ, d.members) && p.value == DocRead(c, uj, d.members)
    && Compact(r) == DocText(d.members, d.comma, Compact(p.rest))
  }

  lemma {:induction false} AcceptedIsDoc(c: Codec, uj: Obj, key: Key, r: seq<Lexeme>) returns (d: Doc)
    requires SkipsNothing(c) && Typed(c, uj) && ParseObject(c, uj, WantKey, key, r).Ok?
    ensures IsDoc(c, uj, d, r, ParseObject(c, uj, WantKey, key, r))
    decreases |r|, 0
  {
    hide Compact, HandleField, Lookup, ValueRead, ValueFits, Typed, ParseObject, IsDoc;
    AcceptedKey(c, uj, key, r);
    if ScanFrom(r).tok == EndObject {
      d := Doc([], false);
      EmptyDoc(c, uj, key, r);
    } else {
      var k := ScanFrom(r).tok.text;
      var value := AcceptedColon(c, uj, key, r);
      var i := AcceptedField(c, uj, k, value);
      var kind := c.fields(uj.typ)[i].kind;
      TypedField(c, uj, i);
      var tok, after := ScanFrom(value).tok, ScanFrom(value).rest;
      ValueStep(c, uj, i, value);
      var h := HandleField(c, kind, uj.fields[i], tok, after);
      var v := AcceptedIsValue(c, kind, uj.fields[i], value);
      HandledFieldIsGood(c, false, kind, uj.fields[i], tok, after);
      SetFieldGood(c, false, uj, i, h.value);
      var uj' := SetField(uj, i, h.value);
      var p := ParseObject(c, uj', AfterValue, KeyAt(i), h.rest);
      AcceptedAfter(c, uj', KeyAt(i), h.rest);
      if ScanFrom(h.rest).tok == EndObject {
        d := Doc([DocMember(k, v)] + [], false);
        LastDoc(c, uj', h.rest, p);
        ConsDoc(c, uj, DocMember(k, v), uj', Doc([], false), r, value, h.rest, p);
      } else {
        var d' := AcceptedIsDoc(c, uj', KeyAt(i), ScanFrom(h.rest).rest);
        d := Doc([DocMember(k, v)] + d'.members, d'.comma || d'.members == []);
        CommaDoc(c, uj', d', h.rest, p);
        ConsDoc(c, uj, DocMember(k, v), uj', Doc(d'.members, d.comma), r, value, h.rest, p);
      }
    }
  }

  /** What the parser does next in an accepted text. */
  lemma AcceptedKey(c: Codec, uj: Obj, key: Key, r: seq<Lexeme>)
    requires ParseObject(c, uj, WantKey, key, r).Ok?
    ensures Compact(r) != [] && (ScanFrom(r).tok == EndObject || ScanFrom(r).tok.Str?)
  {
    CompactScan(r);
  }

  lemma EmptyDoc(c: Codec, uj: Obj, key: Key, r: seq<Lexeme>)
    requires Compact(r) != [] && ScanFrom(r).tok == EndObject
    ensures IsDoc(c, uj, Doc([], false), r, ParseObject(c, uj, WantKey, key, r))
  {
    Next(r);
    assert [EndObject] + Compact(r)[1..] == Compact(r);
  }

  lemma AcceptedColon(c: Codec, uj: Obj, key: Key, r: seq<Lexeme>) returns (r': seq<Lexeme>)
    requires ParseObject(c, uj, WantKey, key, r).Ok? && Compact(r) != [] && ScanFrom(r).tok.Str?
    ensures Compact(r) == [ScanFrom(r).tok] + ([Colon] + Compact(r')) && |r'| < |r|
    ensures ParseObject(c, uj, WantKey, key, r) == ParseObject(c, uj, WantValue, Lookup(c, c.fields(uj.typ), ScanFrom(r).tok.text), r')
  {
    hide Lookup;
    CompactScan(r);
    CompactScan(ScanFrom(r).rest);
    r' := ScanFrom(ScanFrom(r).rest).rest;
  }

  /** A value in an accepted text belongs to a known field, and its handler has read it. */
  lemma AcceptedField(c: Codec, uj: Obj, k: string, r: seq<Lexeme>) returns (i: nat)
    requires SkipsNothing(c) && Typed(c, uj) && ParseObject(c, uj, WantValue, Lookup(c, c.fields(uj.typ), k), r).Ok?
    ensures i < |uj.fields| && i < |c.fields(uj.typ)| && Lookup(c, c.fields(uj.typ), k) == KeyAt(i)
    ensures Compact(r) != [] && IsValueToken(ScanFrom(r).tok)
    ensures HandleField(c, c.fields(uj.typ)[i].kind, uj.fields[i], ScanFrom(r).tok, ScanFrom(r).rest).Ok?
  {
    hide Lookup, HandleField;
    CompactScan(r);
    LookupInRange(c, c.fields(uj.typ), k);
    i := Lookup(c, c.fields(uj.typ), k).index;
  }

  lemma AcceptedAfter(c: Codec, uj: Obj, key: Key, r: seq<Lexeme>)
    requires ParseObject(c, uj, AfterValue, key, r).Ok?
    ensures var t := ScanFrom(r);
            && |t.rest| < |r| && Compact(r) == [t.tok] + Compact(t.rest)
            && (t.tok == EndObject || t.tok == Comma)
            && (t.tok == EndObject ==> ParseObject(c, uj, AfterValue, key, r) == Ok(uj, t.rest))
            && (t.tok == Comma ==> ParseObject(c, uj, AfterValue, key, r) == ParseObject(c, uj, WantKey, key, t.rest))
  {
    CompactScan(r);
  }

  /** The tail of a document, seen from behind a value. */
  ghost predicate IsTail(c: Codec, uj: Obj, d: Doc, r: seq<Lexeme>, p: Parsed<Obj>) {
    && p.Ok? && DocFits(c, uj.typ, d.members) && p.value == DocRead(c, uj, d.members)
    && Compact(r) == MoreText(d.members, d.comma, Compact(p.rest))
  }

  lemma LastDoc(c: Codec, uj: Obj, r: seq<Lexeme>, p: Parsed<Obj>)
    requires p == Ok(uj, ScanFrom(r).rest) && Compact(r) == [EndObject] + Compact(ScanFrom(r).rest)
    ensures IsTail(c, uj, Doc([], false), r, p)
  {
  }

  lemma CommaDoc(c: Codec, uj: Obj, d: Doc, r: seq<Lexeme>, p: Parsed<Obj>)
    requires IsDoc(c, uj, d, ScanFrom(r).rest, p) && Compact(r) == [Comma] + Compact(ScanFrom(r).rest)
    ensures IsTail(c, uj, Doc(d.members, d.comma || d.members == []), r, p)
  {
    hide Compact;
    var t := Compact(p.rest);
    assert d.members == [] ==> DocText(d.members, d.comma, t) == DocText(d.members, true, t);
  }

  lemma ConsDoc(c: Codec, uj: Obj, m: DocMember, uj': Obj, d: Doc, r: seq<Lexeme>, value: seq<Lexeme>, after: seq<Lexeme>, p: Parsed<Obj>)
    requires Lookup(c, c.fields(uj.typ), m.key).KeyAt?
    requires var i := Lookup(c, c.fields(uj.typ), m.key).index;
             i < |uj.fields| && i < |c.fields(uj.typ)| && ValueFits(c, c.fields(uj.typ)[i].kind, m.value) &&
             uj' == SetField(uj, i, ValueRead(c, c.fields(uj.typ)[i].kind, uj.fields[i], m.value))
    requires Compact(r) == [Str(m.key)] + ([Colon] + Compact(value)) && Compact(value) == ValueText(m.value, Compact(after))
    requires IsTail(c, uj', d, after, p)
    ensures IsDoc(c, uj, Doc([m] + d.members, d.comma), r, p)
  {
    hide Compact, ValueRead, ValueFits, ValueText, MoreText, Lookup;
    var ms := [m] + d.members;
    assert ms[0] == m && ms[1..] == d.members;
    assert uj'.typ == uj.typ;
  }

  ghost predicate IsValue(c: Codec, k: Kind, cur: Value, v: DocValue, r: seq<Lexeme>, p: Parsed<Value>) {
    p.Ok? && ValueFits(c, k, v) && p.value == ValueRead(c, k, cur, v) && Compact(r) == ValueText(v, Compact(p.rest))
  }

  lemma {:induction false} AcceptedIsValue(c: Codec, k: Kind, cur: Value, r: seq<Lexeme>) returns (v: DocValue)
    requires SkipsNothing(c) && TypedValue(c, k, cur) && Compact(r) != [] && IsValueToken(ScanFrom(r).tok)
    requires HandleField(c, k, cur, ScanFrom(r).tok, ScanFrom(r).rest).Ok?
    ensures IsValue(c, k, cur, v, r, HandleField(c, k, cur, ScanFrom(r).tok, ScanFrom(r).rest))
    decreases |r|, 2
  {
    hide Compact, ParseObject, ParseStrings, ParsePointers, ParseTags, DocRead, SkipsNothing;
    Next(r);
    var tok, rest := ScanFrom(r).tok, ScanFrom(r).rest;
    var p := HandleField(c, k, cur, tok, rest);
    assert Compact(r) == [tok] + Compact(rest);
    if tok.Null? || k.StringKind? || k.IntKind? {
      v := Token(tok);
    } else {
      match k
      case PointerKind(t) =>
        ZeroIsGood(c, t);
        var d := AcceptedIsDoc(c, if cur.ptr.To? then cur.ptr.target else Zero(c, t), Base, rest);
        v := Struct(tok, d);
      case StringsKind =>
        var n, items := AcceptedIsItems([], true, rest);
        assert [] + Strings(items) == Strings(items);
        v := StringList(items);
      case PointersKind(t) =>
        var n, es, end := AcceptedIsElems(c, t, [], true, rest);
        assert [] + ElemsRead(c, t, es) == ElemsRead(c, t, es);
        v := StructList(es, end);
      case TagsKind =>
        var n, ps := AcceptedIsPairs(map[], true, rest);
        v := TagList(ps);
    }
  }

  ghost predicate AreElems(c: Codec, t: TypeName, acc: seq<Pointer>, n: nat, es: seq<DocElem>, end: Lexeme, r: seq<Lexeme>, p: Parsed<seq<Pointer>>) {
    && p.Ok? && ElemsFit(c, t, es) && (end == EndArray || end == Null)
    && p.value == acc + ElemsRead(c, t, es) && Compact(r) == Commas(n, ElemsText(es, [end] + Compact(p.rest)))
  }

  lemma {:induction false} AcceptedIsElems(c: Codec, t: TypeName, acc: seq<Pointer>, wantVal: bool, r: seq<Lexeme>)
    returns (n: nat, es: seq<DocElem>, end: Lexeme)
    requires SkipsNothing(c) && ParsePointers(c, t, acc, wantVal, r).Ok?
    ensures AreElems(c, t, acc, n, es, end, r, ParsePointers(c, t, acc, wantVal, r)) && (wantVal ==> n == 0)
    decreases |r|, 1
  {
    hide Compact, ParseObject, ParsePointers, SkipsNothing, AreElems, Zero, IsDoc;
    AcceptedElement(c, t, acc, wantVal, r);
    var tok, r' := ScanFrom(r).tok, ScanFrom(r).rest;
    var p := ParsePointers(c, t, acc, wantVal, r);
    if tok == Comma {
      n, es, end := AcceptedIsElems(c, t, acc, false, r');
      n := n + 1;
      CommaElems(c, t, acc, n - 1, es, end, r, r', p);
    } else if tok == EndArray || tok == Null {
      n, es, end := 0, [], tok;
      NoElems(c, t, acc, tok, r, r', p);
    } else {
      ZeroIsGood(c, t);
      var o := ParseObject(c, Zero(c, t), WantKey, Base, r');
      var d := AcceptedIsDoc(c, Zero(c, t), Base, r');
      var m, more;
      m, more, end := AcceptedIsElems(c, t, acc + [To(o.value)], false, o.rest);
      n, es := 0, [DocElem(tok, d, m)] + more;
      ConsElem(c, t, acc, DocElem(tok, d, m), more, end, r, r', o, p);
    }
  }

  lemma AcceptedElement(c: Codec, t: TypeName, acc: seq<Pointer>, wantVal: bool, r: seq<Lexeme>)
    requires ParsePointers(c, t, acc, wantVal, r).Ok?
    ensures var tok, r' := ScanFrom(r).tok, ScanFrom(r).rest;
            && |r'| < |r| && Compact(r) == [tok] + Compact(r')
            && (tok == Comma ==> !wantVal && ParsePointers(c, t, acc, wantVal, r) == ParsePointers(c, t, acc, false, r'))
            && (tok == EndArray || tok == Null ==> ParsePointers(c, t, acc, wantVal, r) == Ok(acc, r'))
            && (tok != Comma && tok != EndArray && tok != Null ==>
                  var o := ParseObject(c, Zero(c, t), WantKey, Base, r');
                  o.Ok? && OpensElement(tok) && ParsePointers(c, t, acc, wantVal, r) == ParsePointers(c, t, acc + [To(o.value)], false, o.rest))
  {
    hide ParseObject;
    NothingFromNothing(c, Zero(c, t));
    CompactScan(r);
    EofIsTheEnd(r);
  }

  lemma {:induction false} EofIsTheEnd(r: seq<Lexeme>)
    ensures Compact(r) == [] ==> ScanFrom(r) == Scanned(Eof, [])
  {
    if r != [] && r[0].Space? {
      EofIsTheEnd(r[1..]);
    }
  }

  lemma CommaElems(c: Codec, t: TypeName, acc: seq<Pointer>, n: nat, es: seq<DocElem>, end: Lexeme, r: seq<Lexeme>, r': seq<Lexeme>, p: Parsed<seq<Pointer>>)
    requires AreElems(c, t, acc, n, es, end, r', p) && Compact(r) == [Comma] + Compact(r')
    ensures AreElems(c, t, acc, n + 1, es, end, r, p)
  {
    hide Compact;
  }

  lemma NoElems(c: Codec, t: TypeName, acc: seq<Pointer>, end: Lexeme, r: seq<Lexeme>, r': seq<Lexeme>, p: Parsed<seq<Pointer>>)
    requires p == Ok(acc, r') && Compact(r) == [end] + Compact(r') && (end == EndArray || end == Null)
    ensures AreElems(c, t, acc, 0, [], end, r, p)
  {
    hide Compact;
    assert acc + ElemsRead(c, t, []) == acc;
  }

  lemma ConsElem(c: Codec, t: TypeName, acc: seq<Pointer>, e: DocElem, more: seq<DocElem>, end: Lexeme,
                 r: seq<Lexeme>, r': seq<Lexeme>, o: Parsed<Obj>, p: Parsed<seq<Pointer>>)
    requires OpensElement(e.opener) && Compact(r) == [e.opener] + Compact(r') && IsDoc(c, Zero(c, t), e.doc, r', o)
    requires AreElems(c, t, acc + [To(o.value)], e.commas, more, end, o.rest, p)
    ensures AreElems(c, t, acc, 0, [e] + more, end, r, p)
  {
    hide Compact, DocText, DocRead, DocFits;
    var es := [e] + more;
    assert es[0] == e && es[1..] == more;
    assert ElemFits(c, t, e) && ElemsFit(c, t, es);
    var after := Commas(e.commas, ElemsText(more, [end] + Compact(p.rest)));
    assert ElemsText(es, [end] + Compact(p.rest)) == ElemText(e, after) == [e.opener] + DocText(e.doc.members, e.doc.comma, after);
    assert Zero(c, t).typ == t;
    assert ElemsRead(c, t, es) == [To(o.value)] + ElemsRead(c, t, more);
    assert acc + [To(o.value)] + ElemsRead(c, t, more) == acc + ElemsRead(c, t, es);
  }

  /** The accepted language, at every depth and with no parser in it: where all keys are known, a
      struct's parser accepts exactly an opening brace and a document of this form, spaces anywhere
      between tokens, and reads it as this value. */
  lemma AcceptedLanguage(c: Codec, uj: Obj, r: seq<Lexeme>, o: Obj, s: seq<Lexeme>)
    requires SkipsNothing(c) && Typed(c, uj)
    ensures Reads(ParseObject(c, uj, MapStart, Base, r), o, s) <==>
            exists d: Doc :: Fits(c, uj.typ, d) && o == Read(c, uj, d) && Compact(r) == [BeginObject] + OpenedText(d, s)
  {
    hide Compact, DocFits, DocRead, DocText, Typed, SkipsNothing;
    var p := ParseObject(c, uj, MapStart, Base, r);
    if Reads(p, o, s) {
      AcceptedOpening(c, uj, r);
      var d := AcceptedIsDoc(c, uj, Base, ScanFrom(r).rest);
      assert Fits(c, uj.typ, d) && Compact(r) == [BeginObject] + OpenedText(d, s);
    }
    forall d: Doc | Fits(c, uj.typ, d) && o == Read(c, uj, d) && Compact(r) == [BeginObject] + OpenedText(d, s)
      ensures Reads(p, o, s)
    {
      Next(r);
      DocIsRead(c, uj, Base, d.members, d.comma, ScanFrom(r).rest, s);
    }
  }

  lemma AcceptedOpening(c: Codec, uj: Obj, r: seq<Lexeme>)
    requires ParseObject(c, uj, MapStart, Base, r).Ok?
    ensures Compact(r) == [BeginObject] + Compact(ScanFrom(r).rest)
    ensures ParseObject(c, uj, MapStart, Base, r) == ParseObject(c, uj, WantKey, Base, ScanFrom(r).rest)
  {
    CompactScan(r);
  }
}
