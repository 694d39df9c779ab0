/** The language that the map loop accepts. */
module MapLanguage {
  import opened Wrappers
  import opened Lexemes
  import opened Parser
  import opened ArrayLanguage

  /** A member, its two tokens strings or `null`, and the number of commas after it. */
  datatype Pair = Pair(key: Lexeme, value: Lexeme, commas: nat)

  ghost predicate Pairs(ps: seq<Pair>) {
    forall i :: 0 <= i < |ps| ==> IsElement(ps[i].key) && IsElement(ps[i].value)
  }

  function PairsText(ps: seq<Pair>, t: seq<Lexeme>): seq<Lexeme> {
    if ps == [] then t
    else [ps[0].key] + ([Colon] + ([ps[0].value] + Commas(ps[0].commas, PairsText(ps[1..], t))))
  }

  /** `acc` after the members have been assigned in order. */
  function Assigned(acc: map<string, string>, ps: seq<Pair>): map<string, string>
    decreases ps
  {
    if ps == [] then acc
    else Assigned(acc[StringOf(ps[0].key) := StringOf(ps[0].value)], ps[1..])
  }

  /** The last value of a repeated key counts, and `null` counts as the empty string. */
  lemma {:induction false} LastValueWins(acc: map<string, string>, ps: seq<Pair>, k: string)
    ensures k in Assigned(acc, ps) <==> k in acc || exists i :: 0 <= i < |ps| && StringOf(ps[i].key) == k
    ensures forall i :: 0 <= i < |ps| && StringOf(ps[i].key) == k && (forall j :: i < j < |ps| ==> StringOf(ps[j].key) != k) ==>
              Assigned(acc, ps)[k] == StringOf(ps[i].value)
    ensures k in acc && (forall i :: 0 <= i < |ps| ==> StringOf(ps[i].key) != k) ==> Assigned(acc, ps)[k] == acc[k]
    decreases ps
  {
    if ps != [] {
      hide StringOf;
      var acc' := acc[StringOf(ps[0].key) := StringOf(ps[0].value)];
      LastValueWins(acc', ps[1..], k);
      assert forall i :: 0 < i < |ps| ==> ps[i] == ps[1..][i - 1];
      assert forall i :: 0 <= i < |ps| - 1 ==> ps[1..][i] == ps[i + 1];
    }
  }

  /** A comma or the closing brace, seen through the spaces. */
  lemma MapStep(acc: map<string, string>, wantVal: bool, r: seq<Lexeme>)
    requires Compact(r) != []
    ensures var tok := Compact(r)[0]; var r' := ScanFrom(r).rest;
            && |r'| < |r| && Compact(r) == [tok] + Compact(r')
            && (tok.EndObject? ==> ParseTags(acc, wantVal, r) == Ok(acc, r'))
            && (tok.Comma? ==> ParseTags(acc, wantVal, r) == if wantVal then Fail(WantedValue) else ParseTags(acc, false, r'))
  {
    CompactScan(r);
  }

  /** A whole member, seen through the spaces. */
  lemma MemberStep(acc: map<string, string>, wantVal: bool, r: seq<Lexeme>)
    requires |Compact(r)| > 2 && IsElement(Compact(r)[0]) && Compact(r)[1].Colon? && IsElement(Compact(r)[2])
    ensures var r' := ScanFrom(ScanFrom(ScanFrom(r).rest).rest).rest;
            && |r'| < |r| && Compact(r) == Compact(r)[..3] + Compact(r')
            && ParseTags(acc, wantVal, r)
               == ParseTags(acc[StringOf(Compact(r)[0]) := StringOf(Compact(r)[2])], false, r')
  {
    CompactScan(r);
    CompactScan(ScanFrom(r).rest);
    CompactScan(ScanFrom(ScanFrom(r).rest).rest);
  }

  /** An accepted text starts with a comma, the closing brace or a member. */
  lemma AcceptedTokens(acc: map<string, string>, wantVal: bool, r: seq<Lexeme>)
    requires ParseTags(acc, wantVal, r).Ok?
    ensures var s := Compact(r);
            && s != []
            && (s[0].EndObject? || (s[0].Comma? && !wantVal)
                || (|s| > 2 && IsElement(s[0]) && s[1].Colon? && IsElement(s[2])))
  {
    CompactScan(r);
    CompactScan(ScanFrom(r).rest);
    CompactScan(ScanFrom(ScanFrom(r).rest).rest);
  }

  lemma {:induction false} AcceptedIsPairs(acc: map<string, string>, wantVal: bool, r: seq<Lexeme>) returns (n: nat, ps: seq<Pair>)
    requires ParseTags(acc, wantVal, r).Ok?
    ensures Pairs(ps) && (wantVal ==> n == 0)
    ensures Compact(r) == Commas(n, PairsText(ps, [EndObject] + Compact(ParseTags(acc, wantVal, r).rest)))
    ensures ParseTags(acc, wantVal, r).value == Assigned(acc, ps)
    decreases |r|
  {
    AcceptedTokens(acc, wantVal, r);
    hide ParseTags, Compact, Pairs, PairsText, Assigned;
    var s := Compact(r);
    ghost var end := [EndObject] + Compact(ParseTags(acc, wantVal, r).rest);
    if s[0].EndObject? {
      MapStep(acc, wantVal, r);
      n, ps := 0, [];
      NoPairs(end, acc);
    } else if s[0].Comma? {
      MapStep(acc, wantVal, r);
      n, ps := AcceptedIsPairs(acc, false, ScanFrom(r).rest);
      n := n + 1;
    } else {
      MemberStep(acc, wantVal, r);
      var r' := ScanFrom(ScanFrom(ScanFrom(r).rest).rest).rest;
      var m, more := AcceptedIsPairs(acc[StringOf(s[0]) := StringOf(s[2])], false, r');
      n, ps := 0, [Pair(s[0], s[2], m)] + more;
      ConsPair(Pair(s[0], s[2], m), more, end, acc);
      assert s[..3] == [s[0], Colon, s[2]];
    }
  }

  lemma NoPairs(end: seq<Lexeme>, acc: map<string, string>)
    ensures Pairs([]) && PairsText([], end) == end && Assigned(acc, []) == acc
  {
  }

  lemma ConsPair(p: Pair, more: seq<Pair>, end: seq<Lexeme>, acc: map<string, string>)
    requires IsElement(p.key) && IsElement(p.value) && Pairs(more)
    ensures Pairs([p] + more)
    ensures PairsText([p] + more, end) == [p.key, Colon, p.value] + Commas(p.commas, PairsText(more, end))
    ensures Assigned(acc, [p] + more) == Assigned(acc[StringOf(p.key) := StringOf(p.value)], more)
  {
    assert ([p] + more)[1..] == more;
    assert [p.key, Colon, p.value] + Commas(p.commas, PairsText(more, end))
        == [p.key] + ([Colon] + ([p.value] + Commas(p.commas, PairsText(more, end))));
  }

  lemma {:induction false} PairsAreAccepted(acc: map<string, string>, wantVal: bool, n: nat, ps: seq<Pair>, r: seq<Lexeme>, s: seq<Lexeme>)
    requires Pairs(ps) && (wantVal ==> n == 0)
    requires Compact(r) == Commas(n, PairsText(ps, [EndObject] + s))
    ensures var res := ParseTags(acc, wantVal, r);
            res.Ok? && res.value == Assigned(acc, ps) && Compact(res.rest) == s
    decreases |r|
  {
    hide ParseTags, Compact;
    if n > 0 {
      MapStep(acc, wantVal, r);
      assert Compact(ScanFrom(r).rest) == Compact(r)[1..];
      PairsAreAccepted(acc, false, n - 1, ps, ScanFrom(r).rest, s);
    } else if ps == [] {
      MapStep(acc, wantVal, r);
      assert Compact(ScanFrom(r).rest) == Compact(r)[1..];
    } else {
      var p, tail := ps[0], Commas(ps[0].commas, PairsText(ps[1..], [EndObject] + s));
      assert Compact(r) == [p.key] + ([Colon] + ([p.value] + tail)) == [p.key, Colon, p.value] + tail;
      MemberStep(acc, wantVal, r);
      var r' := ScanFrom(ScanFrom(ScanFrom(r).rest).rest).rest;
      assert Compact(r') == Compact(r)[3..] == tail;
      PairsAreAccepted(acc[StringOf(p.key) := StringOf(p.value)], false, p.commas, ps[1..], r', s);
    }
  }

  /** The map loop accepts exactly the texts of the form (key : value comma*)* up to the closing
      brace, spaces anywhere, and assigns the members in order. */
  lemma MapLoopLanguage(r: seq<Lexeme>, m: map<string, string>, s: seq<Lexeme>)
    ensures (exists rest :: ParseTags(map[], true, r) == Ok(m, rest) && Compact(rest) == s)
            <==> (exists ps :: Pairs(ps) && Assigned(map[], ps) == m && Compact(r) == PairsText(ps, [EndObject] + s))
  {
    hide ParseTags, Compact, Pairs, PairsText, Assigned;
    var res := ParseTags(map[], true, r);
    if res.Ok? && res.value == m && Compact(res.rest) == s {
      var n, ps := AcceptedIsPairs(map[], true, r);
    }
    forall ps | Pairs(ps) && Assigned(map[], ps) == m && Compact(r) == PairsText(ps, [EndObject] + s)
      ensures res.Ok? && res.value == m && Compact(res.rest) == s
    {
      PairsAreAccepted(map[], true, 0, ps, r, s);
    }
  }
}
