/** Which of the accepted texts are JSON. */
module Strictness {
  import opened Wrappers
  import opened Lexemes
  import opened Structs
  import opened Parser
  import opened JsonGrammar
  import opened JsonReading
  import opened ArrayLanguage
  import opened MapLanguage
  import opened LooseText
  import opened Framing
  import StructLanguage
  import opened RoundTrip

  // The condition -------------------------------------------------------------------------------------

  /** At every depth: no comma stands before a closing brace, each struct opens with a brace, arrays
      of structs end in a bracket, arrays and maps have one comma between elements and none after
      the last, and no key of a map is null. */
  predicate Strict(d: Doc)
    decreases d
  {
    (d.members == [] || !d.comma) && MembersStrict(d.members)
  }

  predicate MembersStrict(ms: seq<DocMember>)
    decreases ms
  {
    ms == [] || (ValueStrict(ms[0].value) && MembersStrict(ms[1..]))
  }

  predicate ValueStrict(v: DocValue)
    decreases v
  {
    match v
    case Token(_) => true
    case Struct(opener, doc) => opener == BeginObject && Strict(doc)
    case StringList(items) => ItemsStrict(items)
    case StructList(es, end) => end == EndArray && ElemsStrict(es)
    case TagList(ps) => PairsStrict(ps)
  }

  predicate ElemsStrict(es: seq<DocElem>)
    decreases es
  {
    es == [] || (ElemStrict(es[0]) && es[0].commas == Between(es[1..]) && ElemsStrict(es[1..]))
  }

  predicate ElemStrict(e: DocElem)
    decreases e
  {
    e.opener == BeginObject && (e.doc.members == [] || !e.doc.comma) && MembersStrict(e.doc.members)
  }

  predicate ItemsStrict(items: seq<Item>) {
    items == [] || (items[0].commas == Between(items[1..]) && ItemsStrict(items[1..]))
  }

  predicate PairsStrict(ps: seq<Pair>) {
    ps == [] || (ps[0].key.Str? && ps[0].commas == Between(ps[1..]) && PairsStrict(ps[1..]))
  }

  /** How many commas go before `more`. */
  function Between<T>(more: seq<T>): nat {
    if more == [] then 0 else 1
  }

  // What JSON makes of an accepted text ---------------------------------------------------------------

  /** The rest of a struct, from behind a value. */
  datatype Tail = Tail(typ: TypeName, members: seq<DocMember>, comma: bool)

  predicate TailStrict(x: Tail) {
    !x.comma && MembersStrict(x.members)
  }

  /** The rests of structs that stand open, the innermost first, and then `t`. */
  function ChainText(chain: seq<Tail>, t: seq<Lexeme>): seq<Lexeme> {
    if chain == [] then t else MoreText(chain[0].members, chain[0].comma, ChainText(chain[1..], t))
  }

  ghost predicate ChainFits(c: Codec, chain: seq<Tail>) {
    forall i :: 0 <= i < |chain| ==> DocFits(c, chain[i].typ, chain[i].members)
  }

  /** JSON gave up, or it stopped where the parser still has `n` structs open. */
  ghost predicate Off(c: Codec, res: Option<seq<Lexeme>>, n: nat, t: seq<Lexeme>) {
    res.None? || exists chain :: |chain| >= n && ChainFits(c, chain) && res.value == ChainText(chain, t)
  }

  lemma DocStart(ms: seq<DocMember>, comma: bool, t: seq<Lexeme>)
    ensures var text := DocText(ms, comma, t);
            && text != [] && (text[0] == EndObject || (|text| > 1 && text[0].Str? && text[1] == Colon))
            && (text[0] == EndObject <==> ms == [])
  {
  }

  /** Nothing of a struct goes on as an array. */
  lemma NoArray(ms: seq<DocMember>, comma: bool, t: seq<Lexeme>)
    ensures var text := DocText(ms, comma, t);
            text != [] && !text[0].EndArray? && SkipElements(text).None? && SkipMoreElements(text).None?
    ensures SkipMoreElements(MoreText(ms, comma, t)).None?
  {
    var text := DocText(ms, comma, t);
    DocStart(ms, comma, t);
    if text[0].Str? {
      assert SkipValue(text) == Some(text[1..]);
    }
    assert ([Comma] + text)[1..] == text;
  }

  lemma {:induction false} TailRun(c: Codec, chain: seq<Tail>, t: seq<Lexeme>)
    requires chain != [] && ChainFits(c, chain)
    ensures var res := SkipMoreMembers(ChainText(chain, t));
            if TailStrict(chain[0]) then res == Some(ChainText(chain[1..], t)) else Off(c, res, |chain|, t)
    decreases |ChainText(chain, t)|, 0
  {
    var x, after := chain[0], ChainText(chain[1..], t);
    if x.members == [] && !x.comma {
      assert ([EndObject] + after)[1..] == after;
    } else {
      var text := DocText(x.members, x.comma, after);
      assert ([Comma] + text)[1..] == text;
      DocStart(x.members, x.comma, after);
      if x.members != [] {
        MembersRun(c, chain, t);
      }
    }
  }

  lemma {:induction false} MembersRun(c: Codec, chain: seq<Tail>, t: seq<Lexeme>)
    requires chain != [] && ChainFits(c, chain) && chain[0].members != []
    ensures var res := SkipMembers(DocText(chain[0].members, chain[0].comma, ChainText(chain[1..], t)));
            if TailStrict(chain[0]) then res == Some(ChainText(chain[1..], t)) else Off(c, res, |chain|, t)
    decreases |DocText(chain[0].members, chain[0].comma, ChainText(chain[1..], t))|, 1
  {
    hide SkipValue, SkipMoreMembers, Off, ValueText, ValueFits, ValueStrict, Lookup;
    var x := chain[0];
    var m, x' := x.members[0], Tail(x.typ, x.members[1..], x.comma);
    var chain' := [x'] + chain[1..];
    assert chain'[1..] == chain[1..];
    var after := ChainText(chain', t);
    var value := ValueText(m.value, after);
    var text := DocText(x.members, x.comma, ChainText(chain[1..], t));
    assert text == [Str(m.key)] + ([Colon] + value);
    assert text[2..] == value;
    FirstFits(c, x);
    ValueRun(c, c.fields(x.typ)[Lookup(c, c.fields(x.typ), m.key).index].kind, m.value, chain', t);
    if ValueStrict(m.value) {
      TailRun(c, chain', t);
    } else {
      NoneIsOff(c, |chain|, t);
    }
  }

  lemma FirstFits(c: Codec, x: Tail)
    requires DocFits(c, x.typ, x.members) && x.members != []
    ensures var key := Lookup(c, c.fields(x.typ), x.members[0].key);
            && key.KeyAt? && key.index < |c.fields(x.typ)|
            && ValueFits(c, c.fields(x.typ)[key.index].kind, x.members[0].value)
            && DocFits(c, x.typ, x.members[1..])
  {
  }

  lemma NoneIsOff(c: Codec, n: nat, t: seq<Lexeme>)
    ensures Off(c, None, n, t)
  {
  }

  /** A value, and what follows it, in a struct. */
  lemma {:induction false} ValueRun(c: Codec, k: Kind, v: DocValue, chain: seq<Tail>, t: seq<Lexeme>)
    requires chain != [] && ChainFits(c, chain) && ValueFits(c, k, v)
    ensures var after := ChainText(chain, t);
            var res := SkipValue(ValueText(v, after));
            if ValueStrict(v) then res == Some(after)
            else res.None? || Off(c, SkipMoreMembers(res.value), |chain|, t)
    decreases |ValueText(v, ChainText(chain, t))|, 2
  {
    var after := ChainText(chain, t);
    match v
    case Token(tok) =>
      assert ([tok] + after)[1..] == after;
    case Struct(opener, d) =>
      if opener == BeginObject {
        OpenedRun(c, k.target, d, chain, t);
      } else {
        OddOpener(c, opener, d, chain, t);
      }
    case StringList(items) => ItemsRun(items, after);
    case StructList(es, end) =>
      NoArray(chain[0].members, chain[0].comma, ChainText(chain[1..], t));
      ListRun(c, k.elem, es, end, after);
    case TagList(ps) => PairsRun(ps, after);
  }

  /** A struct that opens with a brace, in any place. */
  lemma {:induction false} OpenedRun(c: Codec, typ: TypeName, d: Doc, chain: seq<Tail>, t: seq<Lexeme>)
    requires ChainFits(c, chain) && DocFits(c, typ, d.members)
    ensures var res := SkipValue([BeginObject] + DocText(d.members, d.comma, ChainText(chain, t)));
            if Strict(d) then res == Some(ChainText(chain, t))
            else Off(c, res, |chain| + 1, t) && (chain != [] && res.Some? ==> Off(c, SkipMoreMembers(res.value), |chain|, t))
    decreases |[BeginObject] + DocText(d.members, d.comma, ChainText(chain, t))|, 0
  {
    hide SkipValue, SkipMembers, SkipMoreMembers, DocText, MembersStrict, DocFits;
    var after := ChainText(chain, t);
    var text := DocText(d.members, d.comma, after);
    DocStart(d.members, d.comma, after);
    SkipOpened(text);
    if d.members == [] {
      EmptyRun(d.comma, after);
    } else {
      var x := Tail(typ, d.members, d.comma);
      var chain' := [x] + chain;
      assert chain'[1..] == chain;
      MembersRun(c, chain', t);
      if !Strict(d) {
        OffFurther(c, SkipMembers(text), |chain|, t);
      }
    }
  }

  lemma EmptyRun(comma: bool, after: seq<Lexeme>)
    ensures Strict(Doc([], comma)) && DocText([], comma, after) == [EndObject] + after && DocText([], comma, after)[1..] == after
  {
  }

  lemma SkipOpened(text: seq<Lexeme>)
    requires text != []
    ensures SkipValue([BeginObject] + text) == if text[0].EndObject? then Some(text[1..]) else SkipMembers(text)
    ensures SkipValue([BeginArray] + text) == if text[0].EndArray? then Some(text[1..]) else SkipElements(text)
  {
    hide SkipMembers, SkipElements;
    assert ([BeginObject] + text)[1..] == text && ([BeginObject] + text)[2..] == text[1..];
    assert ([BeginArray] + text)[1..] == text && ([BeginArray] + text)[2..] == text[1..];
  }

  /** Where JSON stops inside `n + 1` structs, it goes on to stop inside `n`. */
  lemma {:induction false} OffFurther(c: Codec, res: Option<seq<Lexeme>>, n: nat, t: seq<Lexeme>)
    requires Off(c, res, n + 1, t)
    ensures res.Some? ==> Off(c, SkipMoreMembers(res.value), n, t)
    decreases if res.Some? then |res.value| else 0, 1
  {
    hide SkipMoreMembers;
    if res.Some? {
      var open: seq<Tail> :| |open| >= n + 1 && ChainFits(c, open) && res.value == ChainText(open, t);
      TailRun(c, open, t);
      OffAfter(c, open, n, t);
    }
  }

  /** One struct at most has been closed. */
  lemma OffAfter(c: Codec, open: seq<Tail>, n: nat, t: seq<Lexeme>)
    requires ChainFits(c, open) && |open| > n
    requires var res := SkipMoreMembers(ChainText(open, t));
             res == Some(ChainText(open[1..], t)) || Off(c, res, |open|, t)
    ensures Off(c, SkipMoreMembers(ChainText(open, t)), n, t)
  {
    assert ChainFits(c, open[1..]);
  }

  /** A struct behind another token than a brace: JSON takes the token for the value, and the
      struct's closing brace for that of the struct around it; or it gives up. */
  lemma OddOpener(c: Codec, opener: Lexeme, d: Doc, chain: seq<Tail>, t: seq<Lexeme>)
    requires chain != [] && ChainFits(c, chain) && IsValueToken(opener) && opener != BeginObject
    ensures var res := SkipValue([opener] + DocText(d.members, d.comma, ChainText(chain, t)));
            res.None? || Off(c, SkipMoreMembers(res.value), |chain|, t)
  {
    var after := ChainText(chain, t);
    var text := DocText(d.members, d.comma, after);
    assert ([opener] + text)[1..] == text;
    DocStart(d.members, d.comma, after);
    NoArray(d.members, d.comma, after);
    if d.members == [] {
      assert text[1..] == after;
    }
  }

  /** An array of strings: JSON takes it to its end, or gives up. */
  lemma {:induction false} ItemsRun(items: seq<Item>, after: seq<Lexeme>)
    requires forall i :: 0 <= i < |items| ==> IsElement(items[i].elem)
    ensures SkipValue([BeginArray] + Text(items, [EndArray] + after)) == if ItemsStrict(items) then Some(after) else None
  {
    var text := Text(items, [EndArray] + after);
    assert ([BeginArray] + text)[1..] == text;
    if items == [] {
      assert ([BeginArray] + text)[2..] == after;
    } else {
      MoreItemsRun(items, after);
    }
  }

  lemma {:induction false} MoreItemsRun(items: seq<Item>, after: seq<Lexeme>)
    requires items != [] && forall i :: 0 <= i < |items| ==> IsElement(items[i].elem)
    ensures var text := Text(items, [EndArray] + after);
            text != [] && IsElement(text[0]) && SkipElements(text) == if ItemsStrict(items) then Some(after) else None
    decreases items
  {
    var end := Text(items[1..], [EndArray] + after);
    var rest := Commas(items[0].commas, end);
    assert ([items[0].elem] + rest)[1..] == rest;
    if items[1..] == [] {
      assert ([EndArray] + after)[1..] == after;
    } else {
      MoreItemsRun(items[1..], after);
    }
    CommasRun(items[0].commas, end);
  }

  /** After an element, JSON wants one comma or none. */
  lemma CommasRun(n: nat, r: seq<Lexeme>)
    ensures n == 1 ==> SkipMoreElements(Commas(n, r)) == SkipElements(r) && SkipMoreMembers(Commas(n, r)) == SkipMembers(r)
    ensures n > 1 ==> SkipMoreElements(Commas(n, r)) == None && SkipMoreMembers(Commas(n, r)) == None
  {
    if n > 0 {
      var rest := Commas(n - 1, r);
      assert ([Comma] + rest)[1..] == rest;
      if n > 1 {
        CommaStartsNothing(Commas(n - 2, r));
      }
    }
  }

  lemma CommaStartsNothing(r: seq<Lexeme>)
    ensures SkipElements([Comma] + r) == None && SkipMembers([Comma] + r) == None
  {
    assert SkipValue([Comma] + r) == None;
  }

  /** A map. */
  lemma {:induction false} PairsRun(ps: seq<Pair>, after: seq<Lexeme>)
    requires forall i :: 0 <= i < |ps| ==> IsElement(ps[i].key) && IsElement(ps[i].value)
    ensures SkipValue([BeginObject] + PairsText(ps, [EndObject] + after)) == if PairsStrict(ps) then Some(after) else None
  {
    var text := PairsText(ps, [EndObject] + after);
    assert ([BeginObject] + text)[1..] == text;
    if ps == [] {
      assert ([BeginObject] + text)[2..] == after;
    } else {
      MorePairsRun(ps, after);
    }
  }

  lemma {:induction false} MorePairsRun(ps: seq<Pair>, after: seq<Lexeme>)
    requires ps != [] && forall i :: 0 <= i < |ps| ==> IsElement(ps[i].key) && IsElement(ps[i].value)
    ensures var text := PairsText(ps, [EndObject] + after);
            text != [] && IsElement(text[0]) && SkipMembers(text) == if PairsStrict(ps) then Some(after) else None
    decreases ps
  {
    var p, end := ps[0], PairsText(ps[1..], [EndObject] + after);
    var rest := Commas(p.commas, end);
    var text := PairsText(ps, [EndObject] + after);
    assert text == [p.key] + ([Colon] + ([p.value] + rest));
    assert text[2..] == [p.value] + rest && ([p.value] + rest)[1..] == rest;
    if ps[1..] == [] {
      assert ([EndObject] + after)[1..] == after;
    } else {
      MorePairsRun(ps[1..], after);
    }
    CommasRun(p.commas, end);
  }

  /** An array of structs, where what follows it cannot go on as an array. */
  lemma {:induction false} ListRun(c: Codec, typ: TypeName, es: seq<DocElem>, end: Lexeme, after: seq<Lexeme>)
    requires ElemsFit(c, typ, es) && (end == EndArray || end == Null) && SkipMoreElements(after).None?
    ensures SkipValue([BeginArray] + ElemsText(es, [end] + after)) == if end == EndArray && ElemsStrict(es) then Some(after) else None
    decreases |[BeginArray] + ElemsText(es, [end] + after)|, 1
  {
    var text := ElemsText(es, [end] + after);
    assert ([BeginArray] + text)[1..] == text;
    EndRun(end, after);
    if es == [] {
      assert ([BeginArray] + text)[2..] == after;
    } else {
      ElemsRun(c, typ, es, end, after);
    }
  }

  lemma EndRun(end: Lexeme, after: seq<Lexeme>)
    requires (end == EndArray || end == Null) && SkipMoreElements(after).None?
    ensures SkipElements([end] + after).None?
    ensures SkipMoreElements([end] + after) == if end == EndArray then Some(after) else None
  {
    assert ([end] + after)[1..] == after;
  }

  lemma {:induction false} ElemsRun(c: Codec, typ: TypeName, es: seq<DocElem>, end: Lexeme, after: seq<Lexeme>)
    requires es != [] && ElemsFit(c, typ, es) && (end == EndArray || end == Null) && SkipMoreElements(after).None?
    ensures var text := ElemsText(es, [end] + after);
            text != [] && !text[0].EndArray? && SkipMoreElements(text).None? &&
            SkipElements(text) == if end == EndArray && ElemsStrict(es) then Some(after) else None
    decreases |ElemsText(es, [end] + after)|, 2
  {
    hide SkipValue, SkipMoreElements, SkipElements, SkipMoreMembers, DocText, Commas, DocFits, ElemText, ElemStrict, ElemFits;
    var e, more := es[0], ElemsText(es[1..], [end] + after);
    var rest := Commas(e.commas, more);
    assert ElemsText(es, [end] + after) == ElemText(e, rest);
    assert ElemFits(c, typ, e) && ElemsFit(c, typ, es[1..]);
    ElemRun(c, typ, e, rest);
    EndRun(end, after);
    CommasRun(e.commas, more);
    CommasNone(more);
    CommasAreLonger(e.commas, more);
    ElemIsLonger(e, rest);
    if es[1..] != [] {
      ElemsRun(c, typ, es[1..], end, after);
    }
  }

  lemma CommasNone(r: seq<Lexeme>)
    ensures Commas(0, r) == r
  {
  }

  lemma {:induction false} ElemRun(c: Codec, typ: TypeName, e: DocElem, rest: seq<Lexeme>)
    requires ElemFits(c, typ, e)
    ensures var text := ElemText(e, rest);
            && text != [] && !text[0].EndArray? && SkipMoreElements(text).None?
            && SkipElements(text) == if ElemStrict(e) then SkipMoreElements(rest) else None
    decreases |ElemText(e, rest)|, 1
  {
    hide SkipValue, SkipMoreElements, SkipElements, SkipMembers, SkipMoreMembers, DocText, DocFits, MembersStrict;
    var doc := DocText(e.doc.members, e.doc.comma, rest);
    assert ElemText(e, rest) == [e.opener] + doc;
    NoArray(e.doc.members, e.doc.comma, rest);
    OpenerRun(e.opener, doc);
    if e.opener == BeginObject {
      OpenedRun(c, typ, e.doc, [], rest);
      if !Strict(e.doc) {
        OpenIsNoArray(c, SkipValue([e.opener] + doc), rest);
      }
    }
  }

  /** What JSON does with the token that opens an element, and a struct behind it. */
  lemma OpenerRun(opener: Lexeme, doc: seq<Lexeme>)
    requires OpensElement(opener) && doc != [] && !doc[0].EndArray? && SkipElements(doc).None? && SkipMoreElements(doc).None?
    ensures SkipMoreElements([opener] + doc).None?
    ensures opener != BeginObject ==> SkipElements([opener] + doc).None?
    ensures opener == BeginObject ==>
              SkipElements([opener] + doc)
              == var x := SkipValue([opener] + doc); if x.None? then None else SkipMoreElements(x.value)
  {
    assert ([opener] + doc)[1..] == doc;
    SkipOpened(doc);
  }

  lemma OpenIsNoArray(c: Codec, res: Option<seq<Lexeme>>, t: seq<Lexeme>)
    requires Off(c, res, 1, t)
    ensures res.Some? ==> SkipMoreElements(res.value).None?
  {
    if res.Some? {
      var chain: seq<Tail> :| |chain| >= 1 && ChainFits(c, chain) && res.value == ChainText(chain, t);
      NoArray(chain[0].members, chain[0].comma, ChainText(chain[1..], t));
    }
  }

  lemma {:induction false} ChainIsLonger(chain: seq<Tail>, t: seq<Lexeme>)
    ensures |ChainText(chain, t)| >= |t| + |chain|
    decreases chain
  {
    if chain != [] {
      ChainIsLonger(chain[1..], t);
      TailIsLonger(chain[0].members, chain[0].comma, ChainText(chain[1..], t));
    }
  }

  lemma {:induction false} TailIsLonger(ms: seq<DocMember>, comma: bool, t: seq<Lexeme>)
    ensures |MoreText(ms, comma, t)| > |t| && |DocText(ms, comma, t)| > |t|
    decreases ms
  {
    if ms != [] {
      TailIsLonger(ms[1..], comma, t);
      ValueIsLonger(ms[0].value, MoreText(ms[1..], comma, t));
    }
  }

  lemma {:induction false} ValueIsLonger(v: DocValue, t: seq<Lexeme>)
    ensures |ValueText(v, t)| > |t|
    decreases v
  {
    match v
    case Token(_) =>
    case Struct(_, d) => TailIsLonger(d.members, d.comma, t);
    case StringList(items) => ItemsAreLonger(items, [EndArray] + t);
    case StructList(es, end) => ElemsAreLonger(es, [end] + t);
    case TagList(ps) => PairsAreLonger(ps, [EndObject] + t);
  }

  lemma {:induction false} ElemsAreLonger(es: seq<DocElem>, t: seq<Lexeme>)
    ensures |ElemsText(es, t)| >= |t|
    decreases es
  {
    if es != [] {
      ElemsAreLonger(es[1..], t);
      CommasAreLonger(es[0].commas, ElemsText(es[1..], t));
      ElemIsLonger(es[0], Commas(es[0].commas, ElemsText(es[1..], t)));
    }
  }

  lemma {:induction false} ElemIsLonger(e: DocElem, t: seq<Lexeme>)
    ensures |ElemText(e, t)| > |t|
    decreases e
  {
    TailIsLonger(e.doc.members, e.doc.comma, t);
  }

  lemma {:induction false} ItemsAreLonger(items: seq<Item>, t: seq<Lexeme>)
    ensures |Text(items, t)| >= |t|
    decreases items
  {
    if items != [] {
      ItemsAreLonger(items[1..], t);
      CommasAreLonger(items[0].commas, Text(items[1..], t));
    }
  }

  lemma {:induction false} PairsAreLonger(ps: seq<Pair>, t: seq<Lexeme>)
    ensures |PairsText(ps, t)| >= |t|
    decreases ps
  {
    if ps != [] {
      PairsAreLonger(ps[1..], t);
      CommasAreLonger(ps[0].commas, PairsText(ps[1..], t));
    }
  }

  lemma {:induction false} CommasAreLonger(n: nat, t: seq<Lexeme>)
    ensures |Commas(n, t)| >= |t|
  {
    if n > 0 {
      CommasAreLonger(n - 1, t);
    }
  }

  /** A text of the accepted language is JSON text if and only if it is strict at every depth. */
  lemma JsonIffStrict(c: Codec, typ: TypeName, d: Doc, s: seq<Lexeme>)
    requires Fits(c, typ, d)
    ensures IsJson([BeginObject] + OpenedText(d, s), s) <==> Strict(d)
  {
    hide IsJson, SkipValue, DocText, Strict, DocFits;
    var text := [BeginObject] + OpenedText(d, s);
    JsonIffSkipped(text, s);
    OpenedRun(c, typ, d, [], s);
    if !Strict(d) && SkipValue(text).Some? {
      var chain: seq<Tail> :| |chain| >= 1 && ChainFits(c, chain) && SkipValue(text).value == ChainText(chain, s);
      ChainIsLonger(chain, s);
    }
  }

  // Any codec -------------------------------------------------------------------------------------------

  /** The same codec, where no unknown member is got past. */
  function KnownKeys(c: Codec): Codec {
    c.(skip := (tok, r) => None)
  }

  /** What is accepted with known keys only is accepted whatever the skip. */
  lemma SkipPlaysNoPart(c: Codec, uj: Obj, r: seq<Lexeme>)
    requires ParseObject(KnownKeys(c), uj, MapStart, Base, r).Ok?
    ensures ParseObject(c, uj, MapStart, Base, r) == ParseObject(KnownKeys(c), uj, MapStart, Base, r)
  {
    hide ParseObject;
    ParseFrame(KnownKeys(c), c, false, uj, MapStart, Base, r, []);
    var rest := ParseObject(KnownKeys(c), uj, MapStart, Base, r).rest;
    assert r + [] == r && rest + [] == rest;
  }

  /** `r`, up to `s`, is this document. */
  ghost predicate IsDocument(c: Codec, t: TypeName, d: Doc, r: seq<Lexeme>, s: seq<Lexeme>) {
    Fits(c, t, d) && Compact(r) == [BeginObject] + OpenedText(d, s)
  }

  /** Exactly which accepted texts are JSON. A struct's text with known keys, read as `o` up to
      `s`, is a document; and it is JSON text of RFC 8259 if and only if it is strict. */
  lemma AcceptedIsJsonIffStrict(c: Codec, uj: Obj, r: seq<Lexeme>, o: Obj, s: seq<Lexeme>)
    requires Typed(KnownKeys(c), uj) && Reads(ParseObject(KnownKeys(c), uj, MapStart, Base, r), o, s)
    ensures Reads(ParseObject(c, uj, MapStart, Base, r), o, s)
    ensures exists d: Doc :: IsDocument(KnownKeys(c), uj.typ, d, r, s) && o == Read(KnownKeys(c), uj, d)
    ensures forall d: Doc :: IsDocument(KnownKeys(c), uj.typ, d, r, s) ==> (IsJson(Compact(r), s) <==> Strict(d))
  {
    hide ParseObject, Compact, IsJson, Strict, Fits, Read, OpenedText, Typed;
    SkipPlaysNoPart(c, uj, r);
    AcceptedLanguage(KnownKeys(c), uj, r, o, s);
    var d: Doc :| Fits(KnownKeys(c), uj.typ, d) && o == Read(KnownKeys(c), uj, d) && Compact(r) == [BeginObject] + OpenedText(d, s);
    assert IsDocument(KnownKeys(c), uj.typ, d, r, s);
    forall d: Doc | IsDocument(KnownKeys(c), uj.typ, d, r, s) ensures IsJson(Compact(r), s) <==> Strict(d) {
      JsonIffStrict(KnownKeys(c), uj.typ, d, s);
    }
  }

  // The opening token -----------------------------------------------------------------------------------

  /** In a pointer field the opening token plays no part. */
  lemma OpenerPlaysNoPart(c: Codec, uj: Obj, i: nat, tok: Lexeme, r: seq<Lexeme>)
    requires i < |uj.fields| && i < |c.fields(uj.typ)| && c.fields(uj.typ)[i].kind.PointerKind?
    requires IsValueToken(tok) && tok != Null
    ensures ParseObject(c, uj, WantValue, KeyAt(i), [tok] + r) == ParseObject(c, uj, WantValue, KeyAt(i), [BeginObject] + r)
  {
    ScanHead(tok, r);
    ScanHead(BeginObject, r);
  }

  /** Nor does it in an array of structs. */
  lemma ElementOpenerPlaysNoPart(c: Codec, t: TypeName, acc: seq<Pointer>, wantVal: bool, tok: Lexeme, r: seq<Lexeme>)
    requires OpensElement(tok)
    ensures ParsePointers(c, t, acc, wantVal, [tok] + r) == ParsePointers(c, t, acc, wantVal, [BeginObject] + r)
  {
    hide ParseObject;
    ScanHead(tok, r);
    ScanHead(BeginObject, r);
  }

  /** `{ key : tok }`, where JSON ends the object, and what follows it. */
  function TokenObject(key: string, tok: Lexeme, after: seq<Lexeme>): seq<Lexeme> {
    [BeginObject] + ([Str(key)] + ([Colon] + ([tok] + ([EndObject] + after))))
  }

  /** A text that is read past that brace: with a pointer field of any struct and any value token
      but null, such as `{"config":true}}` for a filter, it is accepted with one brace more, and
      the field is an empty struct. */
  lemma PastTheBrace(c: Codec, uj: Obj, i: nat, tok: Lexeme, rest: seq<Lexeme>)
    requires SoundFields(c.fields(uj.typ)) && i < |uj.fields| && i < |c.fields(uj.typ)|
    requires c.fields(uj.typ)[i].kind.PointerKind? && uj.fields[i] == PointerV(Nil)
    requires IsValueToken(tok) && tok != Null
    ensures var t := c.fields(uj.typ)[i].kind.target;
            ParseObject(c, uj, MapStart, Base, TokenObject(c.fields(uj.typ)[i].key, tok, [EndObject] + rest))
            == Ok(SetField(uj, i, PointerV(To(Zero(c, t)))), rest)
  {
    hide ParseObject, Lookup;
    var k, empty := c.fields(uj.typ)[i].key, Zero(c, c.fields(uj.typ)[i].kind.target);
    var r2 := [EndObject] + ([EndObject] + rest);
    LookupFound(c, c.fields(uj.typ), i);
    StructLanguage.StepBrace(c, uj, [Str(k)] + ([Colon] + ([tok] + r2)));
    StepKey(c, uj, Base, k, [Colon] + ([tok] + r2));
    StepColon(c, uj, KeyAt(i), [tok] + r2);
    ScanHead(tok, r2);
    StepEnd(c, empty, true, Base, [EndObject] + rest);
    RoundTrip.ValueStep(c, uj, i, [tok] + r2, PointerV(To(empty)), [EndObject] + rest);
    StepEnd(c, SetField(uj, i, PointerV(To(empty))), false, KeyAt(i), rest);
  }

  lemma TokenObjectIsJson(key: string, tok: Lexeme, after: seq<Lexeme>)
    requires IsAtom(tok)
    ensures IsJson(TokenObject(key, tok, after), after)
  {
    var ms := [JsonMember(key, Atom(tok))];
    assert MoreMembers(ms[1..], after) == [EndObject] + after;
    assert MembersText(ms, after) == [Str(key)] + ([Colon] + JsonText(Atom(tok), [EndObject] + after));
    assert TokenObject(key, tok, after) == JsonText(Object(ms), after);
  }

  /** An array that is none: the one element opens with any token at all. */
  lemma AnyElementOpens(c: Codec, t: TypeName, tok: Lexeme, rest: seq<Lexeme>)
    requires OpensElement(tok)
    ensures ParsePointers(c, t, [], true, [tok] + ([EndObject] + ([EndArray] + rest))) == Ok([To(Zero(c, t))], rest)
  {
    ElementOpenerPlaysNoPart(c, t, [], true, tok, [EndObject] + ([EndArray] + rest));
    ScanHead(BeginObject, [EndObject] + ([EndArray] + rest));
    StepEnd(c, Zero(c, t), true, Base, [EndArray] + rest);
    hide ParseObject;
    ScanHead(EndArray, rest);
    assert [] + [To(Zero(c, t))] == [To(Zero(c, t))];
  }
}
