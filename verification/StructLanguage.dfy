/** The language that the struct state machine accepts. */
module StructLanguage {
  import opened Wrappers
  import opened Lexemes
  import opened Structs
  import opened Parser
  import opened RoundTrip
  import opened Suffixes

  /** A member with the spaces around its tokens. */
  datatype Member = Member(
    beforeKey: seq<Lexeme>, key: string, beforeColon: seq<Lexeme>, beforeValue: seq<Lexeme>, value: seq<Lexeme>,
    beforeComma: seq<Lexeme>)

  function MemberText(m: Member, after: seq<Lexeme>): seq<Lexeme> {
    m.beforeKey + ([Str(m.key)] + (m.beforeColon + ([Colon] + (m.beforeValue + (m.value + after)))))
  }

  /** What follows the first member: a comma and the others; or, if it is the last, the end of the
      struct, before which one comma may stand. */
  function AfterFirst(ms: seq<Member>, comma: bool, end: seq<Lexeme>): seq<Lexeme>
    requires ms != []
    decreases ms, 0
  {
    if |ms| == 1 && !comma then end
    else ms[0].beforeComma + ([Comma] + MembersText(ms[1..], comma, end))
  }

  /** The members, separated by single commas, before `end`. */
  function MembersText(ms: seq<Member>, comma: bool, end: seq<Lexeme>): seq<Lexeme>
    decreases ms, 1
  {
    if ms == [] then end else MemberText(ms[0], AfterFirst(ms, comma, end))
  }

  /** `uj` after a member of this key has been handled, if its value is one that the handler of
      the field, or the skip of an unknown member, reads exactly to its end. */
  function Handled(c: Codec, uj: Obj, key: string, value: seq<Lexeme>, after: seq<Lexeme>): Option<Obj> {
    if value == [] || !IsValueToken(value[0]) then None
    else
      match Lookup(c, c.fields(uj.typ), key)
      case Base => None
      case NoSuchKey => if Skip(c, value[0], value[1..] + after) == Some(after) then Some(uj) else None
      case KeyAt(i) =>
        if i >= |uj.fields| || i >= |c.fields(uj.typ)| then None
        else
          match HandleField(c, c.fields(uj.typ)[i].kind, uj.fields[i], value[0], value[1..] + after)
          case Ok(v, rest) => if rest == after then Some(SetField(uj, i, v)) else None
          case Fail(_) => None
  }

  ghost predicate Padded(m: Member) {
    Spaces(m.beforeKey) && Spaces(m.beforeColon) && Spaces(m.beforeValue) && Spaces(m.beforeComma)
  }

  /** `o` is what becomes of `uj` as the members are handled one after the other. */
  ghost predicate Folds(c: Codec, uj: Obj, ms: seq<Member>, comma: bool, end: seq<Lexeme>, o: Obj)
    decreases ms
  {
    if ms == [] then o == uj
    else
      var next := Handled(c, uj, ms[0].key, ms[0].value, AfterFirst(ms, comma, end));
      Padded(ms[0]) && next.Some? && Folds(c, next.value, ms[1..], comma, end, o)
  }

  /** The closing brace, with the spaces before it, and what follows the struct. */
  function End(close: seq<Lexeme>, rest: seq<Lexeme>): seq<Lexeme> {
    close + ([EndObject] + rest)
  }

  // Every such text is accepted -------------------------------------------------------------------

  lemma KeyPlaysNoPart(c: Codec, uj: Obj, a: Key, b: Key, r: seq<Lexeme>)
    ensures ParseObject(c, uj, WantKey, a, r) == ParseObject(c, uj, WantKey, b, r)
    ensures ParseObject(c, uj, AfterValue, a, r) == ParseObject(c, uj, AfterValue, b, r)
  {
    NextKey(c, uj, a, b, r);
    NextKey(c, uj, a, b, ScanFrom(r).rest);
  }

  lemma NextKey(c: Codec, uj: Obj, a: Key, b: Key, r: seq<Lexeme>)
    ensures ParseObject(c, uj, WantKey, a, r) == ParseObject(c, uj, WantKey, b, r)
  {
  }

  lemma EndIsRead(c: Codec, uj: Obj, first: bool, key: Key, close: seq<Lexeme>, rest: seq<Lexeme>)
    requires Spaces(close)
    ensures ParseObject(c, uj, Entry(first), key, End(close, rest)) == Ok(uj, rest)
  {
    hide ParseObject;
    ParseSpaces(c, uj, Entry(first), key, close, [EndObject] + rest);
    StepEnd(c, uj, first, key, rest);
  }

  lemma ValueIsRead(c: Codec, uj: Obj, key: string, value: seq<Lexeme>, after: seq<Lexeme>)
    requires Handled(c, uj, key, value, after).Some?
    ensures ParseObject(c, uj, WantValue, Lookup(c, c.fields(uj.typ), key), value + after)
            == ParseObject(c, Handled(c, uj, key, value, after).value, AfterValue, Lookup(c, c.fields(uj.typ), key), after)
  {
    assert value + after == [value[0]] + (value[1..] + after);
    ScanHead(value[0], value[1..] + after);
  }

  /** A member takes the parser from key to key. */
  lemma MemberIsRead(c: Codec, uj: Obj, key: Key, m: Member, after: seq<Lexeme>)
    requires Padded(m) && Handled(c, uj, m.key, m.value, after).Some?
    ensures ParseObject(c, uj, WantKey, key, MemberText(m, after))
            == ParseObject(c, Handled(c, uj, m.key, m.value, after).value, AfterValue, Base, after)
  {
    hide ParseObject, Handled, Lookup;
    var k := Lookup(c, c.fields(uj.typ), m.key);
    var r3 := m.value + after;
    var r2 := m.beforeValue + r3;
    var r1 := m.beforeColon + ([Colon] + r2);
    ParseSpaces(c, uj, WantKey, key, m.beforeKey, [Str(m.key)] + r1);
    StepKey(c, uj, key, m.key, r1);
    ParseSpaces(c, uj, WantColon, k, m.beforeColon, [Colon] + r2);
    StepColon(c, uj, k, r2);
    ParseSpaces(c, uj, WantValue, k, m.beforeValue, r3);
    ValueIsRead(c, uj, m.key, m.value, after);
    KeyPlaysNoPart(c, Handled(c, uj, m.key, m.value, after).value, k, Base, after);
  }

  lemma {:induction false} MembersAreRead(c: Codec, uj: Obj, key: Key, ms: seq<Member>, comma: bool, close: seq<Lexeme>, rest: seq<Lexeme>, o: Obj)
    requires Spaces(close) && Folds(c, uj, ms, comma, End(close, rest), o)
    ensures ParseObject(c, uj, WantKey, key, MembersText(ms, comma, End(close, rest))) == Ok(o, rest)
    decreases ms
  {
    hide ParseObject, Handled, MemberText, End;
    var end := End(close, rest);
    if ms == [] {
      EndIsRead(c, uj, true, key, close, rest);
    } else {
      var after := AfterFirst(ms, comma, end);
      var uj' := Handled(c, uj, ms[0].key, ms[0].value, after).value;
      MemberIsRead(c, uj, key, ms[0], after);
      if |ms| == 1 && !comma {
        EndIsRead(c, uj', false, Base, close, rest);
      } else {
        var more := MembersText(ms[1..], comma, end);
        ParseSpaces(c, uj', AfterValue, Base, ms[0].beforeComma, [Comma] + more);
        StepComma(c, uj', Base, more);
        MembersAreRead(c, uj', Base, ms[1..], comma, close, rest, o);
      }
    }
  }

  // Nothing else is accepted ------------------------------------------------------------------------

  /** An accepted text goes on with a token, and which it may be depends on the state. */
  lemma AcceptedToken(c: Codec, uj: Obj, state: State, key: Key, r: seq<Lexeme>)
    requires ParseObject(c, uj, state, key, r).Ok?
    ensures var tok := ScanFrom(r).tok;
            && !tok.Eof?
            && (state == MapStart ==> tok == BeginObject)
            && (state == WantKey ==> tok == EndObject || tok.Str?)
            && (state == WantColon ==> tok == Colon)
            && (state == WantValue ==> IsValueToken(tok))
            && (state == AfterValue ==> tok == EndObject || tok == Comma)
    ensures ScanFrom(r).tok == EndObject ==> ParseObject(c, uj, state, key, r) == Ok(uj, ScanFrom(r).rest)
    ensures ScanFrom(r).tok == Comma ==> ParseObject(c, uj, state, key, r) == ParseObject(c, uj, WantKey, key, ScanFrom(r).rest)
  {
  }

  /** Where a value has been accepted, the skip or the handler of its field has read it. */
  lemma AcceptedHandler(c: Codec, uj: Obj, key: Key, r: seq<Lexeme>)
    requires ParseObject(c, uj, WantValue, key, r).Ok?
    ensures var t := ScanFrom(r);
            && (key == NoSuchKey ==> Skip(c, t.tok, t.rest).Some?)
            && (key.KeyAt? && key.index < |uj.fields| && key.index < |c.fields(uj.typ)| ==>
                  HandleField(c, c.fields(uj.typ)[key.index].kind, uj.fields[key.index], t.tok, t.rest).Ok?)
  {
    hide HandleField, Skip;
  }

  /** What a member's value is, in an accepted text. */
  lemma AcceptedValue(c: Codec, uj: Obj, key: string, r: seq<Lexeme>) returns (value: seq<Lexeme>, after: seq<Lexeme>)
    requires |uj.fields| == |c.fields(uj.typ)|
    requires ParseObject(c, uj, WantValue, Lookup(c, c.fields(uj.typ), key), r).Ok?
    ensures |after| <= |ScanFrom(r).rest|
    ensures [ScanFrom(r).tok] + ScanFrom(r).rest == value + after && Handled(c, uj, key, value, after).Some?
  {
    hide ParseObject, HandleField, Skip, Lookup;
    var fs := c.fields(uj.typ);
    var t := ScanFrom(r);
    AcceptedToken(c, uj, WantValue, Lookup(c, fs, key), r);
    AcceptedHandler(c, uj, Lookup(c, fs, key), r);
    LookupInRange(c, fs, key);
    if Lookup(c, fs, key) == NoSuchKey {
      after := Skip(c, t.tok, t.rest).value;
      SkipSuffix(c, t.tok, t.rest);
    } else {
      var i := Lookup(c, fs, key).index;
      after := HandleField(c, fs[i].kind, uj.fields[i], t.tok, t.rest).rest;
      FieldLeaves(c, fs[i].kind, uj.fields[i], t.tok, t.rest);
    }
    value := [t.tok] + t.rest[..|t.rest| - |after|];
    assert value[1..] + after == t.rest;
  }

  /** The first member of an accepted text. */
  lemma AcceptedMember(c: Codec, uj: Obj, key: Key, r: seq<Lexeme>) returns (m: Member, after: seq<Lexeme>)
    requires |uj.fields| == |c.fields(uj.typ)| && ParseObject(c, uj, WantKey, key, r).Ok? && ScanFrom(r).tok != EndObject
    ensures Padded(m) && m.beforeComma == [] && r == MemberText(m, after) && |after| < |r|
    ensures Handled(c, uj, m.key, m.value, after).Some?
  {
    hide ParseObject, Handled, Lookup;
    AcceptedToken(c, uj, WantKey, key, r);
    var k := ScanFrom(r).tok.text;
    var i := Lookup(c, c.fields(uj.typ), k);
    var beforeKey := ScanSplit(r);
    var r1 := ScanFrom(r).rest;
    ParseSpaces(c, uj, WantKey, key, beforeKey, [Str(k)] + r1);
    StepKey(c, uj, key, k, r1);
    AcceptedToken(c, uj, WantColon, i, r1);
    var beforeColon := ScanSplit(r1);
    var r2 := ScanFrom(r1).rest;
    ParseSpaces(c, uj, WantColon, i, beforeColon, [Colon] + r2);
    StepColon(c, uj, i, r2);
    AcceptedToken(c, uj, WantValue, i, r2);
    var beforeValue := ScanSplit(r2);
    var value;
    value, after := AcceptedValue(c, uj, k, r2);
    m := Member(beforeKey, k, beforeColon, beforeValue, value, []);
  }

  lemma {:induction false} AcceptedIsMembers(c: Codec, uj: Obj, key: Key, r: seq<Lexeme>)
    returns (ms: seq<Member>, comma: bool, close: seq<Lexeme>)
    requires |uj.fields| == |c.fields(uj.typ)| && ParseObject(c, uj, WantKey, key, r).Ok?
    ensures var res := ParseObject(c, uj, WantKey, key, r);
            && Spaces(close) && r == MembersText(ms, comma, End(close, res.rest))
            && Folds(c, uj, ms, comma, End(close, res.rest), res.value)
    decreases |r|
  {
    hide ParseObject, Handled, Lookup, MemberText, Folds;
    AcceptedToken(c, uj, WantKey, key, r);
    var res := ParseObject(c, uj, WantKey, key, r);
    if ScanFrom(r).tok == EndObject {
      close := ScanSplit(r);
      ms, comma := [], false;
      NoMembers(c, uj, comma, End(close, res.rest));
    } else {
      var m, after := AcceptedMember(c, uj, key, r);
      var uj' := Handled(c, uj, m.key, m.value, after).value;
      HandledKeepsShape(c, uj, m.key, m.value, after);
      MemberIsRead(c, uj, key, m, after);
      AcceptedToken(c, uj', AfterValue, Base, after);
      var gap := ScanSplit(after);
      if ScanFrom(after).tok == EndObject {
        ms, comma, close := [m], false, gap;
        assert [m] + [] == ms;
        NoMembers(c, uj', comma, End(close, res.rest));
        ConsMember(c, uj, m, [], comma, End(close, res.rest), res.value);
      } else {
        var more, comma';
        more, comma', close := AcceptedIsMembers(c, uj', Base, ScanFrom(after).rest);
        comma := comma' || more == [];
        var m' := m.(beforeComma := gap);
        ms := [m'] + more;
        SameMemberText(m, m', after);
        CommaOfNone(c, uj', more, comma', comma, End(close, res.rest), res.value);
        assert ms[1..] == more;
        KeyPlaysNoPart(c, uj', Base, key, ScanFrom(after).rest);
        ConsMember(c, uj, m', more, comma, End(close, res.rest), res.value);
      }
    }
  }

  lemma NoMembers(c: Codec, uj: Obj, comma: bool, end: seq<Lexeme>)
    ensures MembersText([], comma, end) == end && Folds(c, uj, [], comma, end, uj)
  {
  }

  lemma SameMemberText(m: Member, m': Member, after: seq<Lexeme>)
    requires m' == m.(beforeComma := m'.beforeComma)
    ensures MemberText(m', after) == MemberText(m, after)
  {
  }

  /** Whether a comma follows the last of no members plays no part. */
  lemma CommaOfNone(c: Codec, uj: Obj, ms: seq<Member>, comma: bool, comma': bool, end: seq<Lexeme>, o: Obj)
    requires ms == [] || comma' == comma
    ensures MembersText(ms, comma', end) == MembersText(ms, comma, end)
    ensures Folds(c, uj, ms, comma', end, o) == Folds(c, uj, ms, comma, end, o)
  {
  }

  lemma HandledKeepsShape(c: Codec, uj: Obj, key: string, value: seq<Lexeme>, after: seq<Lexeme>)
    ensures var h := Handled(c, uj, key, value, after);
            h.Some? ==> h.value.typ == uj.typ && |h.value.fields| == |uj.fields|
  {
    hide HandleField, Lookup;
  }

  lemma ConsMember(c: Codec, uj: Obj, m: Member, more: seq<Member>, comma: bool, end: seq<Lexeme>, o: Obj)
    requires var after := AfterFirst([m] + more, comma, end);
             && Padded(m) && Handled(c, uj, m.key, m.value, after).Some?
             && Folds(c, Handled(c, uj, m.key, m.value, after).value, more, comma, end, o)
    ensures Folds(c, uj, [m] + more, comma, end, o)
    ensures MembersText([m] + more, comma, end) == MemberText(m, AfterFirst([m] + more, comma, end))
  {
    hide Handled, MemberText, AfterFirst;
    assert ([m] + more)[1..] == more;
  }

  // The language ------------------------------------------------------------------------------------

  /** A struct's parser accepts exactly an opening brace, members separated by single commas, with
      or without one after the last, and a closing brace, spaces anywhere between tokens; it
      handles the members in order and leaves what follows unread. This is one level of the text,
      with whatever the handlers and the skip read as values; `LooseText` has every level. */
  lemma StructLanguage(c: Codec, uj: Obj, r: seq<Lexeme>, o: Obj, rest: seq<Lexeme>)
    requires |uj.fields| == |c.fields(uj.typ)|
    ensures ParseObject(c, uj, MapStart, Base, r) == Ok(o, rest) <==>
            exists open, ms, comma, close ::
              Spaces(open) && Spaces(close) && Folds(c, uj, ms, comma, End(close, rest), o) &&
              r == open + ([BeginObject] + MembersText(ms, comma, End(close, rest)))
  {
    hide ParseObject, Folds, MembersText, End;
    if ParseObject(c, uj, MapStart, Base, r) == Ok(o, rest) {
      AcceptedToken(c, uj, MapStart, Base, r);
      var open := ScanSplit(r);
      ParseSpaces(c, uj, MapStart, Base, open, [BeginObject] + ScanFrom(r).rest);
      StepBrace(c, uj, ScanFrom(r).rest);
      var ms, comma, close := AcceptedIsMembers(c, uj, Base, ScanFrom(r).rest);
      assert Spaces(open) && Spaces(close) && Folds(c, uj, ms, comma, End(close, rest), o);
    }
    forall open, ms, comma, close |
        Spaces(open) && Spaces(close) && Folds(c, uj, ms, comma, End(close, rest), o) &&
        r == open + ([BeginObject] + MembersText(ms, comma, End(close, rest)))
      ensures ParseObject(c, uj, MapStart, Base, r) == Ok(o, rest)
    {
      var text := MembersText(ms, comma, End(close, rest));
      ParseSpaces(c, uj, MapStart, Base, open, [BeginObject] + text);
      StepBrace(c, uj, text);
      MembersAreRead(c, uj, Base, ms, comma, close, rest, o);
    }
  }

  lemma StepBrace(c: Codec, uj: Obj, r: seq<Lexeme>)
    ensures ParseObject(c, uj, MapStart, Base, [BeginObject] + r) == ParseObject(c, uj, WantKey, Base, r)
  {
    ScanHead(BeginObject, r);
  }

  /** A text beyond section 4 of RFC 8259, with a comma before the closing brace. */
  lemma CommaBeforeBrace(c: Codec, uj: Obj, i: nat, x: string, rest: seq<Lexeme>)
    requires SoundFields(c.fields(uj.typ)) && i < |uj.fields| && i < |c.fields(uj.typ)| && c.fields(uj.typ)[i].kind == StringKind
    ensures ParseObject(c, uj, MapStart, Base,
              [BeginObject] + ([Str(c.fields(uj.typ)[i].key)] + ([Colon] + ([Str(x)] + ([Comma] + ([EndObject] + rest))))))
            == Ok(SetField(uj, i, StringV(x)), rest)
  {
    hide ParseObject, Lookup;
    var k := c.fields(uj.typ)[i].key;
    var uj', end := SetField(uj, i, StringV(x)), [EndObject] + rest;
    LookupFound(c, c.fields(uj.typ), i);
    StepBrace(c, uj, [Str(k)] + ([Colon] + ([Str(x)] + ([Comma] + end))));
    StepKey(c, uj, Base, k, [Colon] + ([Str(x)] + ([Comma] + end)));
    StepColon(c, uj, KeyAt(i), [Str(x)] + ([Comma] + end));
    ScanHead(Str(x), [Comma] + end);
    ValueStep(c, uj, i, [Str(x)] + ([Comma] + end), StringV(x), [Comma] + end);
    StepComma(c, uj', KeyAt(i), end);
    StepEnd(c, uj', true, KeyAt(i), rest);
  }
}
