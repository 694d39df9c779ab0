/** The language that the array loop accepts, for arrays of strings. */
module ArrayLanguage {
  import opened Wrappers
  import opened Lexemes
  import opened Parser
  import opened RoundTrip
  import Printer

  /** An element token and the number of commas after it. */
  datatype Item = Item(elem: Lexeme, commas: nat)

  predicate IsElement(tok: Lexeme) {
    tok.Str? || tok.Null?
  }

  /** `n` commas, then `t`. */
  function Commas(n: nat, t: seq<Lexeme>): seq<Lexeme> {
    if n == 0 then t else [Comma] + Commas(n - 1, t)
  }

  /** The text of a list of items, each an element and then its commas, followed by `t`. */
  function Text(items: seq<Item>, t: seq<Lexeme>): seq<Lexeme> {
    if items == [] then t else [items[0].elem] + Commas(items[0].commas, Text(items[1..], t))
  }

  function StringOf(tok: Lexeme): string {
    if tok.Str? then tok.text else ""
  }

  function Strings(items: seq<Item>): seq<string> {
    if items == [] then [] else [StringOf(items[0].elem)] + Strings(items[1..])
  }

  ghost predicate Items(items: seq<Item>) {
    forall i :: 0 <= i < |items| ==> IsElement(items[i].elem)
  }

  /** One token at a time, seen through the spaces. */
  lemma ArrayStep(acc: seq<string>, wantVal: bool, r: seq<Lexeme>)
    requires Compact(r) != []
    ensures var tok := Compact(r)[0]; var r' := ScanFrom(r).rest;
            && |r'| < |r| && Compact(r) == [tok] + Compact(r')
            && ParseStrings(acc, wantVal, r)
               == if tok.Invalid? then Fail(TokenError)
                  else if tok.EndArray? then Ok(acc, r')
                  else if tok.Comma? then if wantVal then Fail(WantedValue) else ParseStrings(acc, false, r')
                  else if IsElement(tok) then ParseStrings(acc + [StringOf(tok)], false, r')
                  else Fail(CannotUnmarshal)
  {
    CompactScan(r);
  }

  /** Soundness: an accepted input is a list of items, a closing bracket and the rest. When no
      element is awaited, commas may come first. */
  lemma {:induction false} AcceptedIsItems(acc: seq<string>, wantVal: bool, r: seq<Lexeme>) returns (n: nat, items: seq<Item>)
    requires ParseStrings(acc, wantVal, r).Ok?
    ensures Items(items) && (wantVal ==> n == 0)
    ensures Compact(r) == Commas(n, Text(items, [EndArray] + Compact(ParseStrings(acc, wantVal, r).rest)))
    ensures ParseStrings(acc, wantVal, r).value == acc + Strings(items)
    decreases |r|
  {
    CompactScan(r);
    ArrayStep(acc, wantVal, r);
    hide ParseStrings, Compact, Items, Strings, Text;
    var tok, r' := Compact(r)[0], ScanFrom(r).rest;
    ghost var end := [EndArray] + Compact(ParseStrings(acc, wantVal, r).rest);
    if tok.EndArray? {
      n, items := 0, [];
      NoItems(end, acc);
    } else if tok.Comma? {
      n, items := AcceptedIsItems(acc, false, r');
      n := n + 1;
    } else {
      var m, more := AcceptedIsItems(acc + [StringOf(tok)], false, r');
      n, items := 0, [Item(tok, m)] + more;
      ConsItem(Item(tok, m), more, end, acc);
    }
  }

  lemma NoItems(end: seq<Lexeme>, acc: seq<string>)
    ensures Items([]) && Text([], end) == end && acc + Strings([]) == acc
  {
  }

  lemma ConsItem(x: Item, more: seq<Item>, end: seq<Lexeme>, acc: seq<string>)
    requires IsElement(x.elem) && Items(more)
    ensures Items([x] + more)
    ensures Text([x] + more, end) == [x.elem] + Commas(x.commas, Text(more, end))
    ensures acc + [StringOf(x.elem)] + Strings(more) == acc + Strings([x] + more)
  {
    assert ([x] + more)[1..] == more;
    assert Strings([x] + more) == [StringOf(x.elem)] + Strings(more);
  }

  /** Completeness: every list of items is accepted, with its elements in order. */
  lemma {:induction false} ItemsAreAccepted(acc: seq<string>, wantVal: bool, n: nat, items: seq<Item>, r: seq<Lexeme>, s: seq<Lexeme>)
    requires Items(items) && (wantVal ==> n == 0)
    requires Compact(r) == Commas(n, Text(items, [EndArray] + s))
    ensures var res := ParseStrings(acc, wantVal, r);
            res.Ok? && res.value == acc + Strings(items) && Compact(res.rest) == s
    decreases |r|
  {
    ArrayStep(acc, wantVal, r);
    hide ParseStrings, Compact;
    var r' := ScanFrom(r).rest;
    assert Compact(r') == Compact(r)[1..];
    if n > 0 {
      ItemsAreAccepted(acc, false, n - 1, items, r', s);
    } else if items == [] {
      assert acc + Strings(items) == acc;
    } else {
      var x := items[0];
      ItemsAreAccepted(acc + [StringOf(x.elem)], false, x.commas, items[1..], r', s);
      assert acc + [StringOf(x.elem)] + Strings(items[1..]) == acc + Strings(items);
    }
  }

  /** The array loop accepts exactly the texts of the form (element comma*)* up to the closing
      bracket, spaces anywhere, and appends the elements in order. */
  lemma StringArrayLanguage(r: seq<Lexeme>, ss: seq<string>, s: seq<Lexeme>)
    ensures (exists rest :: ParseStrings([], true, r) == Ok(ss, rest) && Compact(rest) == s)
            <==> (exists items :: Items(items) && Strings(items) == ss && Compact(r) == Text(items, [EndArray] + s))
  {
    hide ParseStrings, Compact;
    var res := ParseStrings([], true, r);
    if res.Ok? && res.value == ss && Compact(res.rest) == s {
      var n, items := AcceptedIsItems([], true, r);
      assert [] + Strings(items) == Strings(items);
    }
    forall items | Items(items) && Strings(items) == ss && Compact(r) == Text(items, [EndArray] + s)
      ensures res.Ok? && res.value == ss && Compact(res.rest) == s
    {
      ItemsAreAccepted([], true, 0, items, r, s);
      assert [] + Strings(items) == Strings(items);
    }
  }

  /** The items of a strict array, with one comma between elements and none after the last:
      section 5 of RFC 8259. */
  function StrictItems(ss: seq<string>): seq<Item> {
    if ss == [] then [] else [Item(Str(ss[0]), if |ss| == 1 then 0 else 1)] + StrictItems(ss[1..])
  }

  lemma {:induction false} StrictText(ss: seq<string>, first: bool)
    ensures Items(StrictItems(ss)) && Strings(StrictItems(ss)) == ss
    ensures var text := Text(StrictItems(ss), [EndArray]);
            Printer.PrintStrings(ss, first) == if first || ss == [] then text else [Comma] + text
    decreases ss
  {
    if ss != [] {
      StrictText(ss[1..], false);
      assert StrictItems(ss)[1..] == StrictItems(ss[1..]);
      assert Commas(1, Text(StrictItems(ss[1..]), [EndArray])) == [Comma] + Text(StrictItems(ss[1..]), [EndArray]);
      if |ss| == 1 {
        assert ss[1..] == [];
      }
    }
  }

  lemma {:induction false} CommasAppend(n: nat, t: seq<Lexeme>, s: seq<Lexeme>)
    ensures Commas(n, t) + s == Commas(n, t + s)
  {
    if n > 0 {
      CommasAppend(n - 1, t, s);
      assert [Comma] + Commas(n - 1, t) + s == [Comma] + (Commas(n - 1, t) + s);
    }
  }

  lemma {:induction false} TextAppend(items: seq<Item>, t: seq<Lexeme>, s: seq<Lexeme>)
    ensures Text(items, t) + s == Text(items, t + s)
    decreases items
  {
    if items != [] {
      TextAppend(items[1..], t, s);
      CommasAppend(items[0].commas, Text(items[1..], t), s);
    }
  }

  /** The printer writes strict arrays; and the loop reads every strict array, spaces anywhere in
      it, as its elements, and leaves what follows it. */
  lemma StrictArrays(ss: seq<string>, r: seq<Lexeme>, s: seq<Lexeme>)
    ensures Printer.PrintStrings(ss, true) + s == Text(StrictItems(ss), [EndArray] + s)
    ensures Compact(r) == Text(StrictItems(ss), [EndArray] + s) ==>
              var res := ParseStrings([], true, r);
              res.Ok? && res.value == ss && Compact(res.rest) == s
  {
    StrictText(ss, true);
    TextAppend(StrictItems(ss), [EndArray], s);
    if Compact(r) == Text(StrictItems(ss), [EndArray] + s) {
      hide ParseStrings, Compact;
      ItemsAreAccepted([], true, 0, StrictItems(ss), r, s);
      assert [] + ss == ss;
    }
  }

  /** The loop accepts more than strict arrays, a trailing comma or no comma at all, but never
      a leading comma. */
  lemma LooserThanStrict(x: string, acc: seq<string>, r: seq<Lexeme>)
    ensures ParseStrings(acc, true, [Str(x)] + ([Comma] + ([EndArray] + r))) == Ok(acc + [x], r)
    ensures ParseStrings(acc, true, [Str(x)] + ([Str(x)] + ([EndArray] + r))) == Ok(acc + [x] + [x], r)
    ensures ParseStrings(acc, true, [Comma] + r) == Fail(WantedValue)
  {
    ScanHead(EndArray, r);
    ScanHead(Comma, [EndArray] + r);
    ScanHead(Comma, r);
    StringStep(x, true, acc, [Comma] + ([EndArray] + r));
    StringStep(x, true, acc, [Str(x)] + ([EndArray] + r));
    StringStep(x, true, acc + [x], [EndArray] + r);
    assert [] + [Str(x)] == [Str(x)];
  }
}
