/** What a parser leaves unread is an end piece of its input. */
module Suffixes {
  import opened Wrappers
  import opened Lexemes
  import opened Structs
  import opened Parser

  ghost predicate IsSuffix(rest: seq<Lexeme>, r: seq<Lexeme>) {
    |rest| <= |r| && rest == r[|r| - |rest|..]
  }

  lemma SuffixTransitive(a: seq<Lexeme>, b: seq<Lexeme>, d: seq<Lexeme>)
    requires IsSuffix(a, b) && IsSuffix(b, d)
    ensures IsSuffix(a, d)
  {
  }

  lemma {:induction false} ScanSuffix(r: seq<Lexeme>)
    ensures IsSuffix(ScanFrom(r).rest, r)
  {
    if r != [] && r[0].Space? {
      ScanSuffix(r[1..]);
      SuffixTransitive(ScanFrom(r).rest, r[1..], r);
    }
  }

  lemma SkipSuffix(c: Codec, tok: Lexeme, r: seq<Lexeme>)
    ensures Skip(c, tok, r).Some? ==> IsSuffix(Skip(c, tok, r).value, r)
  {
  }

  ghost predicate Leaves<T>(p: Parsed<T>, r: seq<Lexeme>) {
    p.Ok? ==> IsSuffix(p.rest, r)
  }

  lemma LeavesMore<T>(p: Parsed<T>, r: seq<Lexeme>, r': seq<Lexeme>)
    requires Leaves(p, r') && IsSuffix(r', r)
    ensures Leaves(p, r)
  {
    if p.Ok? {
      SuffixTransitive(p.rest, r', r);
    }
  }

  lemma {:induction false} ObjectLeaves(c: Codec, uj: Obj, state: State, key: Key, r: seq<Lexeme>)
    ensures Leaves(ParseObject(c, uj, state, key, r), r)
    decreases |r|, 0
  {
    hide IsSuffix;
    var t := ScanFrom(r);
    var res := ParseObject(c, uj, state, key, r);
    ScanSuffix(r);
    if res.Ok? {
      if state == WantKey && t.tok.Str? {
        ObjectLeaves(c, uj, WantColon, Lookup(c, c.fields(uj.typ), t.tok.text), t.rest);
        LeavesMore(res, r, t.rest);
      } else if state == WantValue && key == NoSuchKey {
        var r' := Skip(c, t.tok, t.rest).value;
        SkipSuffix(c, t.tok, t.rest);
        SkipShortens(c, t.tok, t.rest);
        ObjectLeaves(c, uj, AfterValue, key, r');
        LeavesMore(res, t.rest, r');
        LeavesMore(res, r, t.rest);
      } else if state == WantValue && key.KeyAt? && key.index < |uj.fields| && key.index < |c.fields(uj.typ)| {
        var h := HandleField(c, c.fields(uj.typ)[key.index].kind, uj.fields[key.index], t.tok, t.rest);
        FieldLeaves(c, c.fields(uj.typ)[key.index].kind, uj.fields[key.index], t.tok, t.rest);
        ObjectLeaves(c, SetField(uj, key.index, h.value), AfterValue, key, h.rest);
        LeavesMore(res, t.rest, h.rest);
        LeavesMore(res, r, t.rest);
      } else {
        ObjectLeaves(c, uj, WantKey, key, t.rest);
        ObjectLeaves(c, uj, WantValue, key, t.rest);
        if res.rest != t.rest {
          LeavesMore(res, r, t.rest);
        }
      }
    }
  }

  lemma SkipShortens(c: Codec, tok: Lexeme, r: seq<Lexeme>)
    ensures Skip(c, tok, r).Some? ==> |Skip(c, tok, r).value| <= |r|
  {
  }

  lemma {:induction false} FieldLeaves(c: Codec, k: Kind, cur: Value, tok: Lexeme, r: seq<Lexeme>)
    ensures Leaves(HandleField(c, k, cur, tok, r), r)
    decreases |r|, 2
  {
    hide ParseObject, ParseStrings, ParsePointers, ParseTags;
    match k
    case PointerKind(t) =>
      ObjectLeaves(c, if cur.PointerV? && cur.ptr.To? then cur.ptr.target else Zero(c, t), WantKey, Base, r);
    case StringsKind => StringsLeave([], true, r);
    case PointersKind(t) => PointersLeave(c, t, [], true, r);
    case TagsKind => TagsLeave(map[], true, r);
    case _ =>
  }

  lemma {:induction false} StringsLeave(acc: seq<string>, wantVal: bool, r: seq<Lexeme>)
    ensures Leaves(ParseStrings(acc, wantVal, r), r)
    decreases |r|
  {
    hide IsSuffix;
    var t, res := ScanFrom(r), ParseStrings(acc, wantVal, r);
    ScanSuffix(r);
    if res.Ok? && !t.tok.EndArray? {
      var acc' := if t.tok.Comma? then acc else acc + [if t.tok.Str? then t.tok.text else ""];
      StringsLeave(acc', false, t.rest);
      LeavesMore(res, r, t.rest);
    }
  }

  lemma {:induction false} PointersLeave(c: Codec, e: TypeName, acc: seq<Pointer>, wantVal: bool, r: seq<Lexeme>)
    ensures Leaves(ParsePointers(c, e, acc, wantVal, r), r)
    decreases |r|, 1
  {
    hide IsSuffix, ParseObject;
    var t, res := ScanFrom(r), ParsePointers(c, e, acc, wantVal, r);
    ScanSuffix(r);
    if res.Ok? && !t.tok.EndArray? && !t.tok.Null? {
      if t.tok.Comma? {
        PointersLeave(c, e, acc, wantVal, t.rest);
      } else {
        ObjectLeaves(c, Zero(c, e), WantKey, Base, t.rest);
        var o := ParseObject(c, Zero(c, e), WantKey, Base, t.rest);
        PointersLeave(c, e, acc + [To(o.value)], false, o.rest);
        LeavesMore(res, t.rest, o.rest);
      }
      LeavesMore(res, r, t.rest);
    }
  }

  lemma {:induction false} TagsLeave(acc: map<string, string>, wantVal: bool, r: seq<Lexeme>)
    ensures Leaves(ParseTags(acc, wantVal, r), r)
    decreases |r|
  {
    hide IsSuffix;
    var t, res := ScanFrom(r), ParseTags(acc, wantVal, r);
    ScanSuffix(r);
    if res.Ok? && !t.tok.EndObject? {
      if t.tok.Comma? {
        TagsLeave(acc, wantVal, t.rest);
      } else {
        var colon := ScanFrom(t.rest);
        var val := ScanFrom(colon.rest);
        ScanSuffix(t.rest);
        ScanSuffix(colon.rest);
        TagsLeave(acc[StringOrNull(t.tok).value := StringOrNull(val.tok).value], false, val.rest);
        LeavesMore(res, colon.rest, val.rest);
        LeavesMore(res, t.rest, colon.rest);
      }
      LeavesMore(res, r, t.rest);
    }
  }

  // Spaces between tokens -------------------------------------------------------------------------

  ghost predicate Spaces(s: seq<Lexeme>) {
    forall i :: 0 <= i < |s| ==> s[i].Space?
  }

  lemma {:induction false} ScanSpaces(gap: seq<Lexeme>, r: seq<Lexeme>)
    requires Spaces(gap)
    ensures ScanFrom(gap + r) == ScanFrom(r)
    decreases gap
  {
    if gap == [] {
      assert gap + r == r;
    } else {
      ScanSpaces(gap[1..], r);
      assert (gap + r)[1..] == gap[1..] + r;
    }
  }

  /** A text, if it is not all spaces, is spaces, its first token, and what is scanned next. */
  lemma {:induction false} ScanSplit(r: seq<Lexeme>) returns (gap: seq<Lexeme>)
    requires !ScanFrom(r).tok.Eof?
    ensures Spaces(gap) && r == gap + ([ScanFrom(r).tok] + ScanFrom(r).rest)
    decreases r
  {
    gap := [];
    if r[0].Space? {
      gap := ScanSplit(r[1..]);
      gap := [r[0]] + gap;
    }
  }

  /** Spaces before a token change nothing, in any state. */
  lemma ParseSpaces(c: Codec, uj: Obj, state: State, key: Key, gap: seq<Lexeme>, r: seq<Lexeme>)
    requires Spaces(gap)
    ensures ParseObject(c, uj, state, key, gap + r) == ParseObject(c, uj, state, key, r)
  {
    ScanSpaces(gap, r);
  }
}
