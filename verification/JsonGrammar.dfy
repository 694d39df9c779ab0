/** JSON text (RFC 8259), token by token and without the spaces between tokens. */
module JsonGrammar {
  import opened Wrappers
  import opened Lexemes

  predicate IsAtom(tok: Lexeme) {
    tok.Str? || tok.Int? || tok.Double? || tok.Bool? || tok.Null?
  }

  type Atomic = tok: Lexeme | IsAtom(tok) witness Null

  /** A JSON value (section 3). */
  datatype Json = Atom(tok: Atomic) | Array(elems: seq<Json>) | Object(members: seq<JsonMember>)

  datatype JsonMember = JsonMember(key: string, value: Json)

  /** The text of a value, followed by `t`. */
  function JsonText(j: Json, t: seq<Lexeme>): seq<Lexeme>
    decreases j
  {
    match j
    case Atom(tok) => [tok] + t
    case Array(es) => [BeginArray] + ElementsText(es, t)
    case Object(ms) => [BeginObject] + MembersText(ms, t)
  }

  /** The elements of an array and its closing bracket (section 5). */
  function ElementsText(es: seq<Json>, t: seq<Lexeme>): seq<Lexeme>
    decreases es, 0
  {
    if es == [] then [EndArray] + t else JsonText(es[0], MoreElements(es[1..], t))
  }

  function MoreElements(es: seq<Json>, t: seq<Lexeme>): seq<Lexeme>
    decreases es, 1
  {
    if es == [] then [EndArray] + t else [Comma] + ElementsText(es, t)
  }

  /** The members of an object and its closing brace (section 4). */
  function MembersText(ms: seq<JsonMember>, t: seq<Lexeme>): seq<Lexeme>
    decreases ms, 0
  {
    if ms == [] then [EndObject] + t
    else [Str(ms[0].key)] + ([Colon] + JsonText(ms[0].value, MoreMembers(ms[1..], t)))
  }

  function MoreMembers(ms: seq<JsonMember>, t: seq<Lexeme>): seq<Lexeme>
    decreases ms, 1
  {
    if ms == [] then [EndObject] + t else [Comma] + MembersText(ms, t)
  }

  /** `r`, up to `s`, is the text of a JSON value. */
  ghost predicate IsJson(r: seq<Lexeme>, s: seq<Lexeme>) {
    exists j :: r == JsonText(j, s)
  }

  /** How a value starts. */
  lemma JsonStart(j: Json, t: seq<Lexeme>)
    ensures var text := JsonText(j, t);
            && text != []
            && match j
               case Atom(tok) => text[0] == tok && text[1..] == t
               case Array(es) => text[0] == BeginArray && text[1..] == ElementsText(es, t)
               case Object(ms) => text[0] == BeginObject && text[1..] == MembersText(ms, t)
  {
  }

  /** The tokens that may start a member's value are those that start some JSON value. */
  lemma ValueTokenIff(tok: Lexeme)
    ensures IsValueToken(tok) <==> exists j, t :: JsonText(j, t)[..1] == [tok]
  {
    forall j, t | JsonText(j, t)[..1] == [tok] ensures IsValueToken(tok) {
      JsonStart(j, t);
      assert JsonText(j, t)[..1][0] == tok;
    }
    if IsValueToken(tok) {
      var j := if tok.BeginArray? then Array([]) else if tok.BeginObject? then Object([]) else Atom(tok);
      JsonStart(j, []);
      assert JsonText(j, [])[..1] == [tok];
    }
  }

  /** The grammar is unambiguous, and a text determines where its value ends. */
  lemma {:induction false} SameJson(j: Json, k: Json, s: seq<Lexeme>, t: seq<Lexeme>)
    requires JsonText(j, s) == JsonText(k, t)
    ensures j == k && s == t
    decreases j
  {
    hide JsonText, ElementsText, MembersText;
    JsonStart(j, s);
    JsonStart(k, t);
    if j.Array? {
      SameElements(j.elems, k.elems, s, t);
    } else if j.Object? {
      SameMembers(j.members, k.members, s, t);
    }
  }

  /** What an array goes on with. */
  lemma ElementsStart(es: seq<Json>, t: seq<Lexeme>)
    ensures var text := ElementsText(es, t); text != [] && (text[0] == EndArray <==> es == [])
    ensures es == [] ==> ElementsText(es, t)[1..] == t
    ensures var text := MoreElements(es, t);
            text != [] && (text[0] == EndArray <==> es == []) && text[1..] == if es == [] then t else ElementsText(es, t)
  {
  }

  lemma {:induction false} SameElements(es: seq<Json>, fs: seq<Json>, s: seq<Lexeme>, t: seq<Lexeme>)
    requires ElementsText(es, s) == ElementsText(fs, t)
    ensures es == fs && s == t
    decreases es
  {
    hide JsonText, MoreElements;
    ElementsStart(es, s);
    ElementsStart(fs, t);
    if es != [] {
      ElementsStart(es[1..], s);
      ElementsStart(fs[1..], t);
      SameJson(es[0], fs[0], MoreElements(es[1..], s), MoreElements(fs[1..], t));
      if es[1..] != [] {
        SameElements(es[1..], fs[1..], s, t);
      }
      assert es == [es[0]] + es[1..] && fs == [fs[0]] + fs[1..];
    }
  }

  lemma MembersStart(ms: seq<JsonMember>, t: seq<Lexeme>)
    ensures var text := MembersText(ms, t); text != [] && (text[0] == EndObject <==> ms == [])
    ensures var text := MembersText(ms, t);
            if ms == [] then text[1..] == t
            else text[0] == Str(ms[0].key) && |text| > 1 && text[2..] == JsonText(ms[0].value, MoreMembers(ms[1..], t))
    ensures var text := MoreMembers(ms, t);
            text != [] && (text[0] == EndObject <==> ms == []) && text[1..] == if ms == [] then t else MembersText(ms, t)
  {
  }

  lemma {:induction false} SameMembers(ms: seq<JsonMember>, ns: seq<JsonMember>, s: seq<Lexeme>, t: seq<Lexeme>)
    requires MembersText(ms, s) == MembersText(ns, t)
    ensures ms == ns && s == t
    decreases ms
  {
    hide JsonText, MembersText, MoreMembers;
    MembersStart(ms, s);
    MembersStart(ns, t);
    if ms != [] {
      MembersStart(ms[1..], s);
      MembersStart(ns[1..], t);
      SameJson(ms[0].value, ns[0].value, MoreMembers(ms[1..], s), MoreMembers(ns[1..], t));
      if ms[1..] != [] {
        SameMembers(ms[1..], ns[1..], s, t);
      }
      assert ms == [ms[0]] + ms[1..] && ns == [ns[0]] + ns[1..];
    }
  }

  // A recogniser ----------------------------------------------------------------------------------

  /** What is left of `r` after one JSON value. */
  function SkipValue(r: seq<Lexeme>): (rest: Option<seq<Lexeme>>)
    decreases |r|, 0
    ensures rest.Some? ==> |rest.value| < |r|
  {
    if r == [] then None
    else if IsAtom(r[0]) then Some(r[1..])
    else if r[0].BeginArray? then
      if r[1..] != [] && r[1].EndArray? then Some(r[2..]) else SkipElements(r[1..])
    else if r[0].BeginObject? then
      if r[1..] != [] && r[1].EndObject? then Some(r[2..]) else SkipMembers(r[1..])
    else None
  }

  /** What is left after one or more elements and a closing bracket. */
  function SkipElements(r: seq<Lexeme>): (rest: Option<seq<Lexeme>>)
    decreases |r|, 1
    ensures rest.Some? ==> |rest.value| < |r|
  {
    match SkipValue(r)
    case None => None
    case Some(x) => SkipMoreElements(x)
  }

  function SkipMoreElements(r: seq<Lexeme>): (rest: Option<seq<Lexeme>>)
    decreases |r|, 0
    ensures rest.Some? ==> |rest.value| < |r|
  {
    if r == [] then None
    else if r[0].EndArray? then Some(r[1..])
    else if r[0].Comma? then SkipElements(r[1..])
    else None
  }

  /** What is left after one or more members and a closing brace. */
  function SkipMembers(r: seq<Lexeme>): (rest: Option<seq<Lexeme>>)
    decreases |r|, 1
    ensures rest.Some? ==> |rest.value| < |r|
  {
    if |r| < 2 || !r[0].Str? || !r[1].Colon? then None
    else
      match SkipValue(r[2..])
      case None => None
      case Some(x) => SkipMoreMembers(x)
  }

  function SkipMoreMembers(r: seq<Lexeme>): (rest: Option<seq<Lexeme>>)
    decreases |r|, 0
    ensures rest.Some? ==> |rest.value| < |r|
  {
    if r == [] then None
    else if r[0].EndObject? then Some(r[1..])
    else if r[0].Comma? then SkipMembers(r[1..])
    else None
  }

  /** The recogniser takes a JSON text to its end. */
  lemma {:induction false} JsonIsSkipped(j: Json, t: seq<Lexeme>)
    ensures JsonText(j, t) != [] && SkipValue(JsonText(j, t)) == Some(t)
    decreases j
  {
    match j
    case Atom(tok) =>
    case Array(es) =>
      var text := ElementsText(es, t);
      assert ([BeginArray] + text)[1..] == text;
      if es == [] {
        assert ([BeginArray] + text)[2..] == t;
      } else {
        ElementsAreSkipped(es, t);
      }
    case Object(ms) =>
      var text := MembersText(ms, t);
      assert ([BeginObject] + text)[1..] == text;
      if ms == [] {
        assert ([BeginObject] + text)[2..] == t;
      } else {
        MembersAreSkipped(ms, t);
      }
  }

  lemma {:induction false} ElementsAreSkipped(es: seq<Json>, t: seq<Lexeme>)
    requires es != []
    ensures var text := ElementsText(es, t); text != [] && !text[0].EndArray? && SkipElements(text) == Some(t)
    decreases es
  {
    var more := MoreElements(es[1..], t);
    JsonIsSkipped(es[0], more);
    if es[1..] == [] {
      assert more[1..] == t;
    } else {
      ElementsAreSkipped(es[1..], t);
      assert more[1..] == ElementsText(es[1..], t);
    }
  }

  lemma {:induction false} MembersAreSkipped(ms: seq<JsonMember>, t: seq<Lexeme>)
    requires ms != []
    ensures var text := MembersText(ms, t); text != [] && text[0].Str? && SkipMembers(text) == Some(t)
    decreases ms
  {
    var more := MoreMembers(ms[1..], t);
    var value := JsonText(ms[0].value, more);
    assert ([Str(ms[0].key)] + ([Colon] + value))[2..] == value;
    JsonIsSkipped(ms[0].value, more);
    if ms[1..] == [] {
      assert more[1..] == t;
    } else {
      MembersAreSkipped(ms[1..], t);
      assert more[1..] == MembersText(ms[1..], t);
    }
  }

  /** What the recogniser takes is JSON text. */
  lemma {:induction false} SkippedIsJson(r: seq<Lexeme>) returns (j: Json)
    requires SkipValue(r).Some?
    ensures r == JsonText(j, SkipValue(r).value)
    decreases |r|, 0
  {
    if IsAtom(r[0]) {
      j := Atom(r[0]);
    } else if r[0].BeginArray? {
      if r[1].EndArray? {
        j := Array([]);
      } else {
        var es := SkippedIsElements(r[1..]);
        j := Array(es);
      }
      assert r == [BeginArray] + r[1..];
    } else {
      if r[1].EndObject? {
        j := Object([]);
      } else {
        var ms := SkippedIsMembers(r[1..]);
        j := Object(ms);
      }
      assert r == [BeginObject] + r[1..];
    }
  }

  lemma {:induction false} SkippedIsElements(r: seq<Lexeme>) returns (es: seq<Json>)
    requires SkipElements(r).Some?
    ensures es != [] && r == ElementsText(es, SkipElements(r).value)
    decreases |r|, 1
  {
    var j := SkippedIsJson(r);
    var x := SkipValue(r).value;
    if x[0].EndArray? {
      es := [j];
      assert x == [EndArray] + x[1..];
    } else {
      var more := SkippedIsElements(x[1..]);
      es := [j] + more;
      assert es[1..] == more && x == [Comma] + x[1..];
    }
  }

  lemma {:induction false} SkippedIsMembers(r: seq<Lexeme>) returns (ms: seq<JsonMember>)
    requires SkipMembers(r).Some?
    ensures ms != [] && r == MembersText(ms, SkipMembers(r).value)
    decreases |r|, 1
  {
    var j := SkippedIsJson(r[2..]);
    var x := SkipValue(r[2..]).value;
    assert r == [r[0]] + ([Colon] + r[2..]);
    if x[0].EndObject? {
      ms := [JsonMember(r[0].text, j)];
      assert x == [EndObject] + x[1..];
    } else {
      var more := SkippedIsMembers(x[1..]);
      ms := [JsonMember(r[0].text, j)] + more;
      assert ms[1..] == more && x == [Comma] + x[1..];
    }
  }

  /** The recogniser is exact. */
  lemma JsonIffSkipped(r: seq<Lexeme>, s: seq<Lexeme>)
    ensures IsJson(r, s) <==> SkipValue(r) == Some(s)
  {
    forall j | r == JsonText(j, s) ensures SkipValue(r) == Some(s) {
      JsonIsSkipped(j, s);
    }
    if SkipValue(r) == Some(s) {
      var j := SkippedIsJson(r);
    }
  }
}
