/** The language that the array loop accepts, for arrays of structs. */
module ObjectArrays {
  import opened Wrappers
  import opened Lexemes
  import opened Structs
  import opened Printer
  import opened Parser
  import opened RoundTrip
  import opened Suffixes

  /** An element: its text, the struct it stands for, and the commas and spaces after it. */
  datatype Piece = Piece(text: seq<Lexeme>, value: Obj, gap: seq<Lexeme>)

  ghost predicate IsGap(gap: seq<Lexeme>, commas: bool) {
    forall i :: 0 <= i < |gap| ==> gap[i].Space? || (commas && gap[i].Comma?)
  }

  /** What the loop takes for the start of an element: an opening brace, but also any other
      token that does not mean something else to it. */
  predicate StartsElement(tok: Lexeme) {
    !tok.Space? && !tok.Invalid? && !tok.EndArray? && !tok.Comma? && !tok.Null?
  }

  function TextOf(ps: seq<Piece>, end: seq<Lexeme>): seq<Lexeme> {
    if ps == [] then end else ps[0].text + (ps[0].gap + TextOf(ps[1..], end))
  }

  function ValuesOf(ps: seq<Piece>): seq<Pointer> {
    if ps == [] then [] else [To(ps[0].value)] + ValuesOf(ps[1..])
  }

  /** Each element, where it stands, is one that the struct's own parser reads to its end. */
  ghost predicate Pieces(c: Codec, t: TypeName, ps: seq<Piece>, end: seq<Lexeme>) {
    ps == [] ||
    (var after := ps[0].gap + TextOf(ps[1..], end);
     && ps[0].text != [] && StartsElement(ps[0].text[0]) && IsGap(ps[0].gap, true)
     && ParseObject(c, Zero(c, t), WantKey, Base, ps[0].text[1..] + after) == Ok(ps[0].value, after)
     && Pieces(c, t, ps[1..], end))
  }

  /** The loop goes over spaces, and over commas where no element is awaited. */
  lemma {:induction false} GapStep(c: Codec, t: TypeName, acc: seq<Pointer>, wantVal: bool, gap: seq<Lexeme>, r: seq<Lexeme>)
    requires IsGap(gap, !wantVal)
    ensures ParsePointers(c, t, acc, wantVal, gap + r) == ParsePointers(c, t, acc, wantVal, r)
    decreases gap
  {
    hide ParseObject;
    if gap == [] {
      assert gap + r == r;
    } else {
      GapStep(c, t, acc, wantVal, gap[1..], r);
      assert (gap + r)[1..] == gap[1..] + r;
      assert ScanFrom(gap + r) == if gap[0].Space? then ScanFrom(gap[1..] + r) else Scanned(Comma, gap[1..] + r);
    }
  }

  lemma ElementStep(c: Codec, t: TypeName, acc: seq<Pointer>, wantVal: bool, r: seq<Lexeme>)
    requires r != [] && StartsElement(r[0])
    ensures ParsePointers(c, t, acc, wantVal, r)
            == match ParseObject(c, Zero(c, t), WantKey, Base, r[1..])
               case Ok(o, r') => ParsePointers(c, t, acc + [To(o)], false, r')
               case Fail(e) => Fail(e)
  {
    hide ParseObject;
  }

  lemma {:induction false} PiecesAreAccepted(c: Codec, t: TypeName, acc: seq<Pointer>, wantVal: bool, gap: seq<Lexeme>,
                                             ps: seq<Piece>, end: Lexeme, rest: seq<Lexeme>)
    requires IsGap(gap, !wantVal) && Pieces(c, t, ps, [end] + rest) && (end.EndArray? || end.Null?)
    ensures ParsePointers(c, t, acc, wantVal, gap + TextOf(ps, [end] + rest)) == Ok(acc + ValuesOf(ps), rest)
    decreases ps
  {
    var text := TextOf(ps, [end] + rest);
    GapStep(c, t, acc, wantVal, gap, text);
    if ps == [] {
      ScanHead(end, rest);
      assert acc + ValuesOf(ps) == acc;
    } else {
      var p, after := ps[0], ps[0].gap + TextOf(ps[1..], [end] + rest);
      assert text[0] == p.text[0] && text[1..] == p.text[1..] + after;
      ElementStep(c, t, acc, wantVal, text);
      PiecesAreAccepted(c, t, acc + [To(p.value)], false, p.gap, ps[1..], end, rest);
      assert acc + [To(p.value)] + ValuesOf(ps[1..]) == acc + ValuesOf(ps);
    }
  }

  lemma {:induction false} AcceptedIsPieces(c: Codec, t: TypeName, acc: seq<Pointer>, wantVal: bool, r: seq<Lexeme>)
    returns (gap: seq<Lexeme>, ps: seq<Piece>, end: Lexeme)
    requires ParsePointers(c, t, acc, wantVal, r).Ok?
    ensures IsGap(gap, !wantVal)
    ensures var res := ParsePointers(c, t, acc, wantVal, r);
            && (end.EndArray? || end.Null?) && Pieces(c, t, ps, [end] + res.rest)
            && r == gap + TextOf(ps, [end] + res.rest) && res.value == acc + ValuesOf(ps)
    decreases |r|
  {
    hide Pieces, TextOf, ValuesOf, ParseObject, ParsePointers, IsGap;
    var rest := ParsePointers(c, t, acc, wantVal, r).rest;
    LoopStep(c, t, acc, wantVal, r);
    if r[0].Space? || r[0].Comma? {
      var gap';
      gap', ps, end := AcceptedIsPieces(c, t, acc, wantVal, r[1..]);
      gap := [r[0]] + gap';
      GapCons(r[0], gap', !wantVal);
      assert r == [r[0]] + r[1..];
      ConcatAssociative([r[0]], gap', TextOf(ps, [end] + rest));
    } else if r[0].EndArray? || r[0].Null? {
      gap, ps, end := [], [], r[0];
      NoPieces(c, t, [end] + rest, acc);
      assert r == [] + ([r[0]] + r[1..]);
    } else {
      var o := ParseObject(c, Zero(c, t), WantKey, Base, r[1..]);
      var after, more;
      after, more, end := AcceptedIsPieces(c, t, acc + [To(o.value)], false, o.rest);
      var text := ElementText(c, t, r);
      gap, ps := [], [Piece(text, o.value, after)] + more;
      ConsPiece(c, t, ps[0], more, [end] + rest, acc);
      assert r == [] + r;
    }
  }

  /** The text of an element that its parser has read. */
  lemma ElementText(c: Codec, t: TypeName, r: seq<Lexeme>) returns (text: seq<Lexeme>)
    requires r != [] && ParseObject(c, Zero(c, t), WantKey, Base, r[1..]).Ok?
    ensures var rest := ParseObject(c, Zero(c, t), WantKey, Base, r[1..]).rest;
            text != [] && text[0] == r[0] && r == text + rest && r[1..] == text[1..] + rest
  {
    hide ParseObject;
    ObjectLeaves(c, Zero(c, t), WantKey, Base, r[1..]);
    text := r[..|r| - |ParseObject(c, Zero(c, t), WantKey, Base, r[1..]).rest|];
  }

  /** One lexeme at a time. */
  lemma LoopStep(c: Codec, t: TypeName, acc: seq<Pointer>, wantVal: bool, r: seq<Lexeme>)
    requires ParsePointers(c, t, acc, wantVal, r).Ok?
    ensures r != [] && (r[0].Space? || r[0].EndArray? || r[0].Null? || (r[0].Comma? && !wantVal) || StartsElement(r[0]))
    ensures ParsePointers(c, t, acc, wantVal, r)
            == if r[0].Space? || r[0].Comma? then ParsePointers(c, t, acc, wantVal, r[1..])
               else if r[0].EndArray? || r[0].Null? then Ok(acc, r[1..])
               else
                 match ParseObject(c, Zero(c, t), WantKey, Base, r[1..])
                 case Ok(o, r') => ParsePointers(c, t, acc + [To(o)], false, r')
                 case Fail(e) => Fail(e)
    ensures IsGap([], !wantVal)
  {
    hide ParseObject;
    NothingFromNothing(c, Zero(c, t));
  }

  lemma GapCons(x: Lexeme, gap: seq<Lexeme>, commas: bool)
    requires IsGap(gap, commas) && (x.Space? || (x.Comma? && commas))
    ensures IsGap([x] + gap, commas)
  {
  }

  lemma NoPieces(c: Codec, t: TypeName, end: seq<Lexeme>, acc: seq<Pointer>)
    ensures Pieces(c, t, [], end) && TextOf([], end) == end && acc + ValuesOf([]) == acc
  {
  }

  lemma ConsPiece(c: Codec, t: TypeName, p: Piece, more: seq<Piece>, end: seq<Lexeme>, acc: seq<Pointer>)
    requires Pieces(c, t, more, end) && p.text != [] && StartsElement(p.text[0]) && IsGap(p.gap, true)
    requires var after := p.gap + TextOf(more, end);
             ParseObject(c, Zero(c, t), WantKey, Base, p.text[1..] + after) == Ok(p.value, after)
    ensures Pieces(c, t, [p] + more, end)
    ensures TextOf([p] + more, end) == p.text + (p.gap + TextOf(more, end))
    ensures acc + [To(p.value)] + ValuesOf(more) == acc + ValuesOf([p] + more)
  {
    hide ParseObject;
    assert ([p] + more)[1..] == more;
  }

  /** The array loop over structs accepts exactly the texts of the form
      space* (element (comma | space)*)* and then a closing bracket or, against section 5 of
      RFC 8259, a null; it appends the elements in order and leaves what follows unread. */
  lemma ObjectArrayLanguage(c: Codec, t: TypeName, r: seq<Lexeme>, os: seq<Pointer>, rest: seq<Lexeme>)
    ensures ParsePointers(c, t, [], true, r) == Ok(os, rest) <==>
            exists gap, ps, end: Lexeme ::
              IsGap(gap, false) && (end.EndArray? || end.Null?) && Pieces(c, t, ps, [end] + rest) &&
              r == gap + TextOf(ps, [end] + rest) && os == ValuesOf(ps)
  {
    hide ParsePointers, Pieces, TextOf, ValuesOf, IsGap;
    if ParsePointers(c, t, [], true, r) == Ok(os, rest) {
      var gap, ps, end := AcceptedIsPieces(c, t, [], true, r);
      assert [] + ValuesOf(ps) == ValuesOf(ps);
      assert IsGap(gap, false) && Pieces(c, t, ps, [end] + rest) && r == gap + TextOf(ps, [end] + rest);
    }
    forall gap, ps, end: Lexeme |
        IsGap(gap, false) && (end.EndArray? || end.Null?) && Pieces(c, t, ps, [end] + rest) &&
        r == gap + TextOf(ps, [end] + rest) && os == ValuesOf(ps)
      ensures ParsePointers(c, t, [], true, r) == Ok(os, rest)
    {
      PiecesAreAccepted(c, t, [], true, gap, ps, end, rest);
      assert [] + ValuesOf(ps) == ValuesOf(ps);
    }
  }
}
