/** The parsers never look past what they consume; so a document cut off anywhere is rejected. */
module Framing {
  import opened Wrappers
  import opened Lexemes
  import opened Structs
  import opened Printer
  import opened Parser
  import opened RoundTrip

  /** The library's skip decides on the lexemes it consumes, not on what follows them. */
  ghost predicate SkipIsLocal(c: Codec) {
    SkipCarries(c, c, false)
  }

  /** `d` is `c` but for the skip. Where `c` skips, `d` skips the same when more text follows;
      or, if `d` is `lossy`, it may fail. */
  ghost predicate SkipCarries(c: Codec, d: Codec, lossy: bool) {
    && d.fields == c.fields && d.fold == c.fold
    && forall tok: Lexeme, r: seq<Lexeme>, s: seq<Lexeme> {:trigger d.skip(tok, r + s)} ::
         c.skip(tok, r).Some? && c.skip(tok, r).value <= |r| ==>
           d.skip(tok, r + s) == c.skip(tok, r) || (lossy && d.skip(tok, r + s).None?)
  }

  /** A token found in `r` is found the same way when more text follows. */
  lemma {:induction false} ScanFrame(r: seq<Lexeme>, s: seq<Lexeme>)
    ensures ScanFrom(r) == Scanned(Eof, []) || ScanFrom(r + s) == Scanned(ScanFrom(r).tok, ScanFrom(r).rest + s)
    decreases r
  {
    if r != [] {
      assert (r + s)[1..] == r[1..] + s;
      if r[0].Space? {
        ScanFrame(r[1..], s);
      }
    }
  }

  ghost predicate Framed<T>(small: Parsed<T>, large: Parsed<T>, s: seq<Lexeme>, lossy: bool) {
    small.Ok? ==> large == Ok(small.value, small.rest + s) || (lossy && large.Fail?)
  }

  lemma SkipFrame(c: Codec, d: Codec, lossy: bool, tok: Lexeme, r: seq<Lexeme>, s: seq<Lexeme>)
    requires SkipCarries(c, d, lossy)
    ensures Skip(c, tok, r).Some? ==>
              Skip(c, tok, r).value == [] || Skip(d, tok, r + s) == Some(Skip(c, tok, r).value + s)
              || (lossy && Skip(d, tok, r + s).None?)
  {
    if c.skip(tok, r).Some? && c.skip(tok, r).value <= |r| {
      var k := c.skip(tok, r).value;
      assert (r + s)[k..] == r[k..] + s;
    }
  }

  lemma SameZero(c: Codec, d: Codec, t: TypeName)
    requires d.fields == c.fields
    ensures Zero(d, t) == Zero(c, t)
  {
  }

  lemma {:induction false} SameLookup(c: Codec, d: Codec, fs: seq<Field>, kn: string, i: nat)
    requires d.fold == c.fold && i <= |fs|
    ensures FoldedKey(d, fs, kn, i) == FoldedKey(c, fs, kn, i)
  {
    if i > 0 {
      SameLookup(c, d, fs, kn, i - 1);
    }
  }

  /** Framing, for any input, in any state, and for two skips at once. */
  lemma {:induction false} ParseFrame(c: Codec, d: Codec, lossy: bool, uj: Obj, state: State, key: Key, r: seq<Lexeme>, s: seq<Lexeme>)
    requires SkipCarries(c, d, lossy)
    ensures Framed(ParseObject(c, uj, state, key, r), ParseObject(d, uj, state, key, r + s), s, lossy)
    decreases |r|, 0
  {
    var t := ScanFrom(r);
    ScanFrame(r, s);
    if t.tok.Invalid? || t.tok.Eof? {
    } else if state == WantKey && t.tok.Str? {
      SameLookup(c, d, c.fields(uj.typ), t.tok.text, |c.fields(uj.typ)|);
      ParseFrame(c, d, lossy, uj, WantColon, Lookup(c, c.fields(uj.typ), t.tok.text), t.rest, s);
    } else if state == WantValue && IsValueToken(t.tok) && key == NoSuchKey {
      SkipFrame(c, d, lossy, t.tok, t.rest, s);
      if Skip(c, t.tok, t.rest).Some? {
        ParseFrame(c, d, lossy, uj, AfterValue, key, Skip(c, t.tok, t.rest).value, s);
      }
    } else if state == WantValue && IsValueToken(t.tok) && key.KeyAt? && key.index < |uj.fields| && key.index < |c.fields(uj.typ)| {
      var i := key.index;
      var h := HandleField(c, c.fields(uj.typ)[i].kind, uj.fields[i], t.tok, t.rest);
      FieldFrame(c, d, lossy, c.fields(uj.typ)[i].kind, uj.fields[i], t.tok, t.rest, s);
      if h.Ok? {
        ParseFrame(c, d, lossy, SetField(uj, i, h.value), AfterValue, key, h.rest, s);
      }
    } else {
      ParseFrame(c, d, lossy, uj, WantKey, key, t.rest, s);
      ParseFrame(c, d, lossy, uj, WantValue, key, t.rest, s);
    }
  }

  lemma {:induction false} FieldFrame(c: Codec, d: Codec, lossy: bool, k: Kind, cur: Value, tok: Lexeme, r: seq<Lexeme>, s: seq<Lexeme>)
    requires SkipCarries(c, d, lossy)
    ensures Framed(HandleField(c, k, cur, tok, r), HandleField(d, k, cur, tok, r + s), s, lossy)
    decreases |r|, 2
  {
    hide ParseObject, ParseStrings, ParsePointers, ParseTags, Zero;
    match k
    case PointerKind(t) =>
      SameZero(c, d, t);
      ParseFrame(c, d, lossy, if cur.PointerV? && cur.ptr.To? then cur.ptr.target else Zero(c, t), WantKey, Base, r, s);
    case StringsKind => StringsFrame([], true, r, s);
    case PointersKind(t) => PointersFrame(c, d, lossy, t, [], true, r, s);
    case TagsKind => TagsFrame(map[], true, r, s);
    case _ =>
  }

  lemma {:induction false} StringsFrame(acc: seq<string>, wantVal: bool, r: seq<Lexeme>, s: seq<Lexeme>)
    ensures Framed(ParseStrings(acc, wantVal, r), ParseStrings(acc, wantVal, r + s), s, false)
    decreases |r|
  {
    var t := ScanFrom(r);
    ScanFrame(r, s);
    if t.tok.Comma? {
      StringsFrame(acc, wantVal, t.rest, s);
    } else if t.tok.Str? || t.tok.Null? {
      StringsFrame(acc + [if t.tok.Str? then t.tok.text else ""], false, t.rest, s);
    }
  }

  lemma {:induction false} PointersFrame(c: Codec, d: Codec, lossy: bool, e: TypeName, acc: seq<Pointer>, wantVal: bool, r: seq<Lexeme>, s: seq<Lexeme>)
    requires SkipCarries(c, d, lossy)
    ensures Framed(ParsePointers(c, e, acc, wantVal, r), ParsePointers(d, e, acc, wantVal, r + s), s, lossy)
    decreases |r|, 1
  {
    hide ParseObject, Zero;
    var t := ScanFrom(r);
    ScanFrame(r, s);
    if t.tok.Invalid? || t.tok.EndArray? || t.tok.Null? {
    } else if t.tok.Comma? {
      PointersFrame(c, d, lossy, e, acc, wantVal, t.rest, s);
    } else {
      SameZero(c, d, e);
      ParseFrame(c, d, lossy, Zero(c, e), WantKey, Base, t.rest, s);
      NothingFromNothing(c, Zero(c, e));
      var o := ParseObject(c, Zero(c, e), WantKey, Base, t.rest);
      if o.Ok? {
        PointersFrame(c, d, lossy, e, acc + [To(o.value)], false, o.rest, s);
      }
    }
  }

  lemma {:induction false} TagsFrame(acc: map<string, string>, wantVal: bool, r: seq<Lexeme>, s: seq<Lexeme>)
    ensures Framed(ParseTags(acc, wantVal, r), ParseTags(acc, wantVal, r + s), s, false)
    decreases |r|
  {
    var t := ScanFrom(r);
    ScanFrame(r, s);
    if t.tok.Comma? {
      TagsFrame(acc, wantVal, t.rest, s);
    } else if StringOrNull(t.tok).Some? {
      var colon := ScanFrom(t.rest);
      ScanFrame(t.rest, s);
      var val := ScanFrom(colon.rest);
      ScanFrame(colon.rest, s);
      if colon.tok.Colon? && StringOrNull(val.tok).Some? {
        TagsFrame(acc[StringOrNull(t.tok).value := StringOrNull(val.tok).value], false, val.rest, s);
      }
    }
  }

  /** Framing, for any input and state: what is accepted is accepted with any text after it, with
      the same value and that text left over. */
  lemma ObjectFrame(c: Codec, uj: Obj, state: State, key: Key, r: seq<Lexeme>, s: seq<Lexeme>)
    requires SkipIsLocal(c) && ParseObject(c, uj, state, key, r).Ok?
    ensures var res := ParseObject(c, uj, state, key, r);
            ParseObject(c, uj, state, key, r + s) == Ok(res.value, res.rest + s)
  {
    ParseFrame(c, c, false, uj, state, key, r, s);
  }

  // A printed text never reaches the skip, whatever it is ----------------------------------------

  /** Typing, printability and printing depend on the tables only. */
  lemma {:induction false} SamePrint(c: Codec, d: Codec, o: Obj)
    requires d.fields == c.fields && Typed(c, o)
    ensures Typed(d, o) && PrintObject(d, o) == PrintObject(c, o)
    decreases o, |o.fields| + 1
  {
    SameMembers(c, d, o, 0, true);
    hide PrintMembers;
    forall i | 0 <= i < |o.fields| ensures TypedValue(d, c.fields(o.typ)[i].kind, o.fields[i]) {
      SameValue(c, d, c.fields(o.typ)[i].kind, o.fields[i]);
    }
  }

  lemma {:induction false} SameMembers(c: Codec, d: Codec, o: Obj, i: nat, first: bool)
    requires d.fields == c.fields && Typed(c, o)
    ensures PrintMembers(d, o, i, first) == PrintMembers(c, o, i, first)
    decreases o, |o.fields| - i
  {
    if i < |o.fields| {
      hide PrintValue, TypedValue;
      SameValue(c, d, c.fields(o.typ)[i].kind, o.fields[i]);
      SameMembers(c, d, o, i + 1, first);
      SameMembers(c, d, o, i + 1, false);
    }
  }

  lemma {:induction false} SameValue(c: Codec, d: Codec, k: Kind, v: Value)
    requires d.fields == c.fields && TypedValue(c, k, v)
    ensures TypedValue(d, k, v) && PrintValue(d, v) == PrintValue(c, v)
    decreases v
  {
    match v
    case PointerV(p) => SamePointer(c, d, k.target, p);
    case PointersV(Slice(os)) => SamePointers(c, d, k.elem, os, true);
    case _ =>
  }

  lemma {:induction false} SamePointer(c: Codec, d: Codec, t: TypeName, p: Pointer)
    requires d.fields == c.fields && TypedPointer(c, t, p)
    ensures TypedPointer(d, t, p) && PrintPointer(d, p) == PrintPointer(c, p)
    decreases p
  {
    if p.To? {
      SamePrint(c, d, p.target);
    }
  }

  lemma {:induction false} SamePointers(c: Codec, d: Codec, t: TypeName, os: seq<Pointer>, first: bool)
    requires d.fields == c.fields && TypedElements(c, t, os)
    ensures TypedElements(d, t, os) && PrintPointers(d, os, first) == PrintPointers(c, os, first)
    decreases os
  {
    if os != [] {
      SamePointer(c, d, t, os[0]);
      SamePointers(c, d, t, os[1..], false);
    }
  }

  /** No proper prefix of a printed document is accepted, whatever the library's skip does. The
      whole text is accepted even where every skip fails; and what a prefix makes the parser do
      would then be done on the whole text, and leave some of it unread. */
  lemma TruncatedIsRejected(c: Codec, o: Obj, n: nat)
    requires Sound(c) && Typed(c, o) && Printable(o) && n < |PrintObject(c, o)|
    ensures ParseObject(c, Zero(c, o.typ), MapStart, Base, PrintObject(c, o)[..n]).Fail?
  {
    hide ParseObject, PrintObject, Typed, Printable, SoundFields;
    var d := c.(skip := (tok, r) => None);
    var text := PrintObject(c, o);
    assert text[..n] + text[n..] == text && text + [] == text;
    SamePrint(c, d, o);
    SameZero(c, d, o.typ);
    DocumentRoundTrip(d, o, []);
    ParseFrame(c, d, true, Zero(c, o.typ), MapStart, Base, text[..n], text[n..]);
  }
}
