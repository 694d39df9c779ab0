/** Parsing inverts printing, for every sound table, every nesting depth and every
    continuation of the text. */
module RoundTrip {
  import opened Wrappers
  import opened Lexemes
  import opened Structs
  import opened Printer
  import opened Parser

  /** An exact key is found by the exact comparison, whatever the folded ones would say. */
  lemma {:induction false} ExactKeyFound(fs: seq<Field>, i: nat, j: nat)
    requires SoundFields(fs) && j <= i < |fs|
    ensures ExactKey(fs, fs[i].key, j) == Some(i)
    decreases i - j
  {
    if j < i {
      ExactKeyFound(fs, i, j + 1);
    }
  }

  lemma LookupFound(c: Codec, fs: seq<Field>, i: nat)
    requires SoundFields(fs) && i < |fs|
    ensures Lookup(c, fs, fs[i].key) == KeyAt(i)
  {
    ExactKeyFound(fs, i, 0);
  }

  /** `uj` while a struct is read back: the fields before `i` have their final value, the
      others are still zero. */
  ghost predicate Half(c: Codec, o: Obj, i: nat, uj: Obj) {
    && uj.typ == o.typ && |uj.fields| == |o.fields| == |c.fields(o.typ)|
    && (forall j :: 0 <= j < i && j < |o.fields| ==> uj.fields[j] == NormField(c, o.typ, j, o.fields[j]))
    && (forall j :: i <= j < |o.fields| ==> uj.fields[j] == ZeroValue(c.fields(o.typ)[j].kind))
  }

  /** Reading back a struct, entered after its opening brace. */
  lemma {:induction false} ObjectRoundTrip(c: Codec, o: Obj, rest: seq<Lexeme>)
    requires Sound(c) && Typed(c, o) && Printable(o)
    ensures ScanFrom(PrintObject(c, o) + rest).tok == BeginObject
    ensures ParseObject(c, Zero(c, o.typ), WantKey, Base, ScanFrom(PrintObject(c, o) + rest).rest) == Ok(Norm(c, o), rest)
    decreases o, |o.fields| + 1, 1
  {
    var ms := PrintMembers(c, o, 0, true).out;
    var pad := if HasOmitEmpty(c.fields(o.typ)) && ms != [EndObject] then [Space] else [];
    assert PrintObject(c, o) + rest == [BeginObject] + (pad + (ms + rest));
    ScanHead(BeginObject, pad + (ms + rest));
    MembersRoundTrip(c, o, 0, true, Zero(c, o.typ), Base, rest);
    if pad == [] {
      assert pad + (ms + rest) == ms + rest;
    } else {
      SpaceBefore(c, Zero(c, o.typ), WantKey, Base, ms + rest);
    }
  }

  /** A padding space changes nothing. */
  lemma SpaceBefore(c: Codec, uj: Obj, state: State, key: Key, r: seq<Lexeme>)
    ensures ParseObject(c, uj, state, key, [Space] + r) == ParseObject(c, uj, state, key, r)
  {
    assert ([Space] + r)[1..] == r;
    assert ScanFrom([Space] + r) == ScanFrom(r);
  }

  /** The state in which the parser meets the first, or a further, member. */
  function Entry(first: bool): State {
    if first then WantKey else AfterValue
  }

  /** What the printer writes before a member's value. */
  function Head(f: Field, first: bool): seq<Lexeme> {
    (if first then [] else [Comma]) + [Str(f.key), Colon]
  }

  /** The steps of the parser, one token each. */
  lemma StepKey(c: Codec, uj: Obj, key: Key, k: string, r: seq<Lexeme>)
    ensures ParseObject(c, uj, WantKey, key, [Str(k)] + r)
            == ParseObject(c, uj, WantColon, Lookup(c, c.fields(uj.typ), k), r)
  {
    ScanHead(Str(k), r);
  }

  lemma StepColon(c: Codec, uj: Obj, key: Key, r: seq<Lexeme>)
    ensures ParseObject(c, uj, WantColon, key, [Colon] + r) == ParseObject(c, uj, WantValue, key, r)
  {
    ScanHead(Colon, r);
  }

  lemma StepComma(c: Codec, uj: Obj, key: Key, r: seq<Lexeme>)
    ensures ParseObject(c, uj, AfterValue, key, [Comma] + r) == ParseObject(c, uj, WantKey, key, r)
  {
    ScanHead(Comma, r);
  }

  lemma StepEnd(c: Codec, uj: Obj, first: bool, key: Key, r: seq<Lexeme>)
    ensures ParseObject(c, uj, Entry(first), key, [EndObject] + r) == Ok(uj, r)
  {
    ScanHead(EndObject, r);
  }

  /** The parser's walk over the start of a member: separator, key and colon. */
  lemma MemberHead(c: Codec, uj: Obj, i: nat, first: bool, key: Key, r: seq<Lexeme>)
    requires SoundFields(c.fields(uj.typ)) && i < |c.fields(uj.typ)|
    ensures ParseObject(c, uj, Entry(first), key, Head(c.fields(uj.typ)[i], first) + r)
            == ParseObject(c, uj, WantValue, KeyAt(i), r)
  {
    hide ParseObject;
    var k := c.fields(uj.typ)[i].key;
    var text := [Str(k)] + ([Colon] + r);
    LookupFound(c, c.fields(uj.typ), i);
    StepKey(c, uj, key, k, [Colon] + r);
    StepColon(c, uj, KeyAt(i), r);
    StepComma(c, uj, key, text);
    assert [Str(k), Colon] + r == text;
    assert Head(c.fields(uj.typ)[i], first) + r == if first then text else [Comma] + text;
  }

  /** One whole member: its field gets its final value. */
  lemma {:induction false} MemberRoundTrip(c: Codec, o: Obj, i: nat, first: bool, uj: Obj, key: Key, tail: seq<Lexeme>)
    requires Sound(c) && Typed(c, o) && Printable(o) && i < |o.fields| && Half(c, o, i, uj)
    requires !Omitted(c.fields(o.typ)[i], o.fields[i])
    ensures !PrintValue(c, o.fields[i]).cut
    ensures ParseObject(c, uj, Entry(first), key, Head(c.fields(o.typ)[i], first) + (PrintValue(c, o.fields[i]).out + tail))
            == ParseObject(c, SetField(uj, i, NormField(c, o.typ, i, o.fields[i])), AfterValue, KeyAt(i), tail)
    decreases o, |o.fields| - i, 0
  {
    hide ParseObject, HandleField, PrintValue;
    assert SoundFields(c.fields(o.typ));
    assert TypedValue(c, c.fields(o.typ)[i].kind, o.fields[i]);
    var v := PrintValue(c, o.fields[i]).out;
    ValueRoundTrip(c, c.fields(o.typ)[i], o.fields[i], tail);
    MemberHead(c, uj, i, first, key, v + tail);
    ValueStep(c, uj, i, v + tail, NormField(c, o.typ, i, o.fields[i]), tail);
  }

  lemma HalfStep(c: Codec, o: Obj, i: nat, uj: Obj)
    requires Half(c, o, i, uj) && i < |o.fields|
    ensures Half(c, o, i + 1, SetField(uj, i, NormField(c, o.typ, i, o.fields[i])))
    ensures Omitted(c.fields(o.typ)[i], o.fields[i]) ==> Half(c, o, i + 1, uj)
  {
  }

  lemma {:induction false} MembersRoundTrip(c: Codec, o: Obj, i: nat, first: bool, uj: Obj, key: Key, rest: seq<Lexeme>)
    requires Sound(c) && Typed(c, o) && Printable(o) && i <= |o.fields| && Half(c, o, i, uj)
    ensures ParseObject(c, uj, Entry(first), key, PrintMembers(c, o, i, first).out + rest) == Ok(Norm(c, o), rest)
    decreases o, |o.fields| - i, 1
  {
    hide ParseObject, HandleField, NormValue, PrintValue, Printable;
    var fs := c.fields(o.typ);
    if i == |o.fields| {
      StepEnd(c, uj, first, key, rest);
      assert uj == Norm(c, o);
    } else if Omitted(fs[i], o.fields[i]) {
      HalfStep(c, o, i, uj);
      MembersRoundTrip(c, o, i + 1, first, uj, key, rest);
    } else {
      var v := PrintValue(c, o.fields[i]).out;
      var tail := PrintMembers(c, o, i + 1, false).out;
      MemberRoundTrip(c, o, i, first, uj, key, tail + rest);
      HalfStep(c, o, i, uj);
      MembersRoundTrip(c, o, i + 1, false, SetField(uj, i, NormField(c, o.typ, i, o.fields[i])), KeyAt(i), rest);
      assert PrintMembers(c, o, i, first).out + rest == Head(fs[i], first) + (v + (tail + rest));
    }
  }

  /** In `WantValue` with a known key, the parser does what the handler does. */
  lemma ValueStep(c: Codec, uj: Obj, i: nat, r: seq<Lexeme>, v: Value, r': seq<Lexeme>)
    requires i < |uj.fields| && i < |c.fields(uj.typ)|
    requires IsValueToken(ScanFrom(r).tok)
    requires HandleField(c, c.fields(uj.typ)[i].kind, uj.fields[i], ScanFrom(r).tok, ScanFrom(r).rest) == Ok(v, r')
    ensures ParseObject(c, uj, WantValue, KeyAt(i), r) == ParseObject(c, SetField(uj, i, v), AfterValue, KeyAt(i), r')
  {
  }

  /** Reading back one field value. */
  lemma {:induction false} ValueRoundTrip(c: Codec, f: Field, v: Value, rest: seq<Lexeme>)
    requires Sound(c) && TypedValue(c, f.kind, v) && PrintableValue(v)
    ensures !PrintValue(c, v).cut
    ensures var s := ScanFrom(PrintValue(c, v).out + rest);
            IsValueToken(s.tok) && HandleField(c, f.kind, ZeroValue(f.kind), s.tok, s.rest) == Ok(NormValue(c, v), rest)
    decreases v
  {
    match v
    case StringV(s) => ScanHead(Str(s), rest);
    case IntV(n) => ScanHead(Int(n), rest);
    case PointerV(p) => PointerRoundTrip(c, f.kind.target, p, rest);
    case StringsV(None) => ScanHead(Null, rest);
    case StringsV(Some(ss)) =>
      assert [BeginArray] + PrintStrings(ss, true) + rest == [BeginArray] + (PrintStrings(ss, true) + rest);
      ScanHead(BeginArray, PrintStrings(ss, true) + rest);
      StringsRoundTrip(ss, true, [], rest);
      assert [] + ss == ss;
    case PointersV(NilSlice) => ScanHead(Null, rest);
    case PointersV(Slice(os)) =>
      var text := PrintPointers(c, os, true).out;
      assert [BeginArray] + text + rest == [BeginArray] + (text + rest);
      ScanHead(BeginArray, text + rest);
      PointersRoundTrip(c, f.kind.elem, os, true, [], rest);
      assert [] + NormElements(c, os) == NormElements(c, os);
    case TagsV(None, _) => ScanHead(Null, rest);
    case TagsV(Some(m), visit) => TagsValueRoundTrip(c, m, visit, rest);
  }

  lemma {:induction false} PointerRoundTrip(c: Codec, t: TypeName, p: Pointer, rest: seq<Lexeme>)
    requires Sound(c) && TypedPointer(c, t, p) && PrintablePointer(p)
    ensures var s := ScanFrom(PrintPointer(c, p) + rest);
            IsValueToken(s.tok) && HandleField(c, PointerKind(t), PointerV(Nil), s.tok, s.rest)
                                   == Ok(PointerV(NormPointer(c, p)), rest)
    decreases p
  {
    if p.Nil? {
      ScanHead(Null, rest);
    } else {
      ObjectRoundTrip(c, p.target, rest);
    }
  }

  lemma StringStep(x: string, first: bool, acc: seq<string>, r: seq<Lexeme>)
    ensures ParseStrings(acc, first, (if first then [] else [Comma]) + [Str(x)] + r) == ParseStrings(acc + [x], false, r)
  {
    ScanHead(Str(x), r);
    if first {
      assert [] + [Str(x)] + r == [Str(x)] + r;
    } else {
      ScanHead(Comma, [Str(x)] + r);
      assert [Comma] + [Str(x)] + r == [Comma] + ([Str(x)] + r);
    }
  }

  lemma {:induction false} StringsRoundTrip(ss: seq<string>, first: bool, acc: seq<string>, rest: seq<Lexeme>)
    ensures ParseStrings(acc, first, PrintStrings(ss, first) + rest) == Ok(acc + ss, rest)
    decreases ss
  {
    if ss == [] {
      ScanHead(EndArray, rest);
      assert acc + ss == acc;
    } else {
      var tail := PrintStrings(ss[1..], false);
      StringStep(ss[0], first, acc, tail + rest);
      StringsRoundTrip(ss[1..], false, acc + [ss[0]], rest);
      assert acc + ss == acc + [ss[0]] + ss[1..];
      var elem := (if first then [] else [Comma]) + [Str(ss[0])];
      assert elem + tail + rest == elem + (tail + rest);
    }
  }

  lemma {:induction false} PointersRoundTrip(c: Codec, t: TypeName, os: seq<Pointer>, first: bool, acc: seq<Pointer>, rest: seq<Lexeme>)
    requires Sound(c) && TypedElements(c, t, os) && PrintableElements(os)
    ensures !PrintPointers(c, os, first).cut
    ensures ParsePointers(c, t, acc, first, PrintPointers(c, os, first).out + rest) == Ok(acc + NormElements(c, os), rest)
    decreases os
  {
    hide ParsePointers, PrintPointer, NormPointer, TypedPointer, PrintablePointer;
    if os == [] {
      PointersEnd(c, t, acc, first, rest);
      assert acc + NormElements(c, os) == acc;
    } else {
      var p := PrintPointer(c, os[0]);
      var tail := PrintPointers(c, os[1..], false).out;
      PointersRoundTrip(c, t, os[1..], false, acc + [NormPointer(c, os[0])], rest);
      ElementRoundTrip(c, t, os[0], first, acc, tail + rest);
      PointersComma(c, t, acc, p + (tail + rest));
      ConcatAssociative(acc, [NormPointer(c, os[0])], NormElements(c, os[1..]));
      PointersText(c, os, first, rest);
    }
  }

  lemma ConcatAssociative<T>(a: seq<T>, b: seq<T>, d: seq<T>)
    ensures a + b + d == a + (b + d)
  {
  }

  lemma PointersText(c: Codec, os: seq<Pointer>, first: bool, rest: seq<Lexeme>)
    requires os != [] && os[0].To?
    ensures PrintPointers(c, os, first).out + rest
            == var text := PrintPointer(c, os[0]) + (PrintPointers(c, os[1..], false).out + rest);
               if first then text else [Comma] + text
  {
    hide PrintPointer;
    var p := PrintPointer(c, os[0]);
    var tail := PrintPointers(c, os[1..], false).out;
    ConcatAssociative(p, tail, rest);
    assert [] + p == p;
    assert [Comma] + p + tail + rest == [Comma] + (p + (tail + rest));
  }

  lemma PointersEnd(c: Codec, t: TypeName, acc: seq<Pointer>, wantVal: bool, r: seq<Lexeme>)
    ensures ParsePointers(c, t, acc, wantVal, [EndArray] + r) == Ok(acc, r)
  {
    ScanHead(EndArray, r);
  }

  lemma PointersComma(c: Codec, t: TypeName, acc: seq<Pointer>, r: seq<Lexeme>)
    ensures ParsePointers(c, t, acc, false, [Comma] + r) == ParsePointers(c, t, acc, false, r)
  {
    ScanHead(Comma, r);
  }

  /** One element of a slice of pointers. */
  lemma {:induction false} ElementRoundTrip(c: Codec, t: TypeName, p: Pointer, wantVal: bool, acc: seq<Pointer>, tail: seq<Lexeme>)
    requires Sound(c) && TypedPointer(c, t, p) && p.To? && PrintablePointer(p)
    ensures ParsePointers(c, t, acc, wantVal, PrintPointer(c, p) + tail)
            == ParsePointers(c, t, acc + [NormPointer(c, p)], false, tail)
    decreases p
  {
    ObjectRoundTrip(c, p.target, tail);
  }

  lemma SpaceBeforeTags(acc: map<string, string>, r: seq<Lexeme>)
    ensures ParseTags(acc, true, [Space] + r) == ParseTags(acc, true, r)
  {
    assert ([Space] + r)[1..] == r;
    assert ScanFrom([Space] + r) == ScanFrom(r);
  }

  /** A map, printed in any iteration order, is read back as the same map. */
  lemma TagsValueRoundTrip(c: Codec, m: map<string, string>, visit: seq<string>, rest: seq<Lexeme>)
    requires IsRange(visit, m)
    ensures var s := ScanFrom(PrintValue(c, TagsV(Some(m), visit)).out + rest);
            s.tok == BeginObject && ParseTags(map[], true, s.rest) == Ok(m, rest)
  {
    hide ParseTags, PrintTags, Collect, IsRange;
    var ts := PrintTags(m, visit, true);
    var pad := if visit == [] then [] else [Space];
    assert PrintValue(c, TagsV(Some(m), visit)).out + rest == [BeginObject] + (pad + (ts + rest));
    ScanHead(BeginObject, pad + (ts + rest));
    SpaceBeforeTags(map[], ts + rest);
    assert [] + (ts + rest) == ts + rest;
    TagsRoundTrip(m, visit, true, map[], rest);
    CollectsAll(m, visit);
  }

  lemma CollectsAll(m: map<string, string>, visit: seq<string>)
    requires IsRange(visit, m)
    ensures Collect(m, visit, map[]) == m
  {
    hide Collect;
    CollectedKeys(m, visit, map[]);
    assert Collect(m, visit, map[]).Keys == m.Keys;
  }

  lemma TagStep(k: string, x: string, first: bool, acc: map<string, string>, r: seq<Lexeme>)
    ensures ParseTags(acc, first, (if first then [] else [Comma]) + [Str(k), Colon, Str(x)] + r)
            == ParseTags(acc[k := x], false, r)
  {
    var text := [Str(k)] + ([Colon] + ([Str(x)] + r));
    ScanHead(Str(k), [Colon] + ([Str(x)] + r));
    ScanHead(Colon, [Str(x)] + r);
    ScanHead(Str(x), r);
    assert [Str(k), Colon, Str(x)] + r == text;
    if first {
      assert [] + [Str(k), Colon, Str(x)] + r == text;
    } else {
      ScanHead(Comma, text);
      assert [Comma] + [Str(k), Colon, Str(x)] + r == [Comma] + text;
    }
  }

  /** `acc` after the keys of `visit` have been assigned their values in `m`, in that order. */
  ghost function Collect(m: map<string, string>, visit: seq<string>, acc: map<string, string>): map<string, string> {
    if visit == [] then acc else Collect(m, visit[1..], acc[visit[0] := TagAt(m, visit[0])])
  }

  lemma {:induction false} TagsRoundTrip(m: map<string, string>, visit: seq<string>, first: bool, acc: map<string, string>, rest: seq<Lexeme>)
    ensures ParseTags(acc, first, PrintTags(m, visit, first) + rest) == Ok(Collect(m, visit, acc), rest)
    decreases visit
  {
    if visit == [] {
      ScanHead(EndObject, rest);
    } else {
      var k := visit[0];
      var tail := PrintTags(m, visit[1..], false);
      TagStep(k, TagAt(m, k), first, acc, tail + rest);
      TagsRoundTrip(m, visit[1..], false, acc[k := TagAt(m, k)], rest);
      var member := (if first then [] else [Comma]) + [Str(k), Colon, Str(TagAt(m, k))];
      assert member + tail + rest == member + (tail + rest);
    }
  }

  lemma {:induction false} CollectedKeys(m: map<string, string>, visit: seq<string>, acc: map<string, string>)
    requires forall k :: k in visit ==> k in m
    requires forall k :: k in acc ==> k in m && acc[k] == m[k]
    ensures Collect(m, visit, acc).Keys == acc.Keys + set k | k in visit
    ensures forall k :: k in Collect(m, visit, acc) ==> k in m && Collect(m, visit, acc)[k] == m[k]
    decreases visit
  {
    if visit != [] {
      var acc' := acc[visit[0] := m[visit[0]]];
      CollectedKeys(m, visit[1..], acc');
      assert forall k :: k in visit <==> k == visit[0] || k in visit[1..];
    }
  }

  /** The whole document, as the exported entry points see it: printing a value without
      nil slice elements and parsing the text into a zero struct gives the value back, up to
      what the text cannot carry, and leaves exactly what follows the text. */
  lemma DocumentRoundTrip(c: Codec, o: Obj, rest: seq<Lexeme>)
    requires Sound(c) && Typed(c, o) && Printable(o)
    ensures ParseObject(c, Zero(c, o.typ), MapStart, Base, PrintObject(c, o) + rest) == Ok(Norm(c, o), rest)
  {
    ObjectRoundTrip(c, o, rest);
  }

  /** Two values with the same text differ only in what the text cannot carry. */
  lemma SameTextSameValue(c: Codec, a: Obj, b: Obj)
    requires Sound(c) && Typed(c, a) && Printable(a) && Typed(c, b) && Printable(b) && a.typ == b.typ
    ensures PrintObject(c, a) == PrintObject(c, b) ==> Norm(c, a) == Norm(c, b)
  {
    DocumentRoundTrip(c, a, []);
    DocumentRoundTrip(c, b, []);
  }
}
