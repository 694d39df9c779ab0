/** What a printer has written before its last rewind. */
module GeneratedText {
  import opened Lexemes
  import opened Structs
  import opened Printer

  /** What the one-byte rewind leaves of a text. */
  function Rewound(s: seq<Lexeme>): seq<Lexeme>
    requires s != []
  {
    s[..|s| - 1]
  }

  function Last(s: seq<Lexeme>): Lexeme
    requires s != []
  {
    s[|s| - 1]
  }

  /** The present members from field `i` on, each followed by a comma, up to an early return. */
  function Written(c: Codec, o: Obj, i: nat): Printed
    decreases |o.fields| - i
  {
    var fs := c.fields(o.typ);
    if i >= |fs| || i >= |o.fields| then Printed([], false)
    else if Omitted(fs[i], o.fields[i]) then Written(c, o, i + 1)
    else
      var v := PrintValue(c, o.fields[i]);
      var member := [Str(fs[i].key), Colon] + v.out;
      if v.cut then Printed(member, true)
      else
        var more := Written(c, o, i + 1);
        Printed(member + [Comma] + more.out, more.cut)
  }

  /** The same members, separated rather than trailed by commas, with the closing brace. */
  function Closing(sep: seq<Lexeme>, w: Printed): seq<Lexeme> {
    if w.cut then sep + w.out
    else if w.out == [] then [EndObject]
    else sep + Rewound(w.out) + [EndObject]
  }

  lemma ClosingStep(sep: seq<Lexeme>, member: seq<Lexeme>, more: Printed)
    ensures sep + member + Closing([Comma], more) == Closing(sep, Printed(member + [Comma] + more.out, more.cut))
  {
    if more.out == [] {
      assert Rewound(member + [Comma] + more.out) == member;
    } else {
      assert Rewound(member + [Comma] + more.out) == member + ([Comma] + Rewound(more.out));
    }
  }

  lemma {:induction false} MembersWritten(c: Codec, o: Obj, i: nat, first: bool)
    ensures var ms, w := PrintMembers(c, o, i, first), Written(c, o, i);
            ms.cut == w.cut && ms.out == Closing(if first then [] else [Comma], w)
    ensures var w := Written(c, o, i);
            (w.out != [] ==> |w.out| > 1 && (w.cut || Last(w.out) == Comma)) && (w.cut ==> w.out != [])
    decreases |o.fields| - i
  {
    hide PrintValue, Omitted, Closing;
    var fs := c.fields(o.typ);
    var sep := if first then [] else [Comma];
    if i >= |fs| || i >= |o.fields| {
      ClosingEnds(sep, []);
    } else if Omitted(fs[i], o.fields[i]) {
      MembersWritten(c, o, i + 1, first);
    } else {
      MembersWritten(c, o, i + 1, false);
      var member := [Str(fs[i].key), Colon] + PrintValue(c, o.fields[i]).out;
      assert sep + [Str(fs[i].key), Colon] + PrintValue(c, o.fields[i]).out == sep + member;
      ClosingEnds(sep, member);
      ClosingStep(sep, member, Written(c, o, i + 1));
    }
  }

  lemma ClosingEnds(sep: seq<Lexeme>, member: seq<Lexeme>)
    ensures Closing(sep, Printed([], false)) == [EndObject]
    ensures Closing(sep, Printed(member, true)) == sep + member
  {
  }

  /** The text of every struct, by its members with trailing commas. Where an early return cut
      them short, it ends with them. Otherwise it is they, less the last comma where no field is
      `omitempty`, and less the last byte of `{ ` and the members where some is: the last comma
      or the padding space, never content or a bracket. */
  lemma GeneratedForm(c: Codec, o: Obj)
    ensures var padded, w := HasOmitEmpty(c.fields(o.typ)), Written(c, o, 0);
            var start := if padded then [BeginObject, Space] else [BeginObject];
            if w.cut then PrintObject(c, o) == start + w.out
            else if padded then PrintObject(c, o) == Rewound(start + w.out) + [EndObject] && Last(start + w.out) in {Comma, Space}
            else if w.out == [] then PrintObject(c, o) == start + [EndObject]
            else PrintObject(c, o) == Rewound(start + w.out) + [EndObject] && Last(start + w.out) == Comma
  {
    hide PrintMembers, Written, HasOmitEmpty;
    MembersWritten(c, o, 0, true);
    var padded, w := HasOmitEmpty(c.fields(o.typ)), Written(c, o, 0);
    var start := if padded then [BeginObject, Space] else [BeginObject];
    if w.cut {
      assert [BeginObject] + [Space] + ([] + w.out) == [BeginObject, Space] + w.out;
      assert w.out[1..] != [] && [] + w.out == w.out;
      EndIsShort(w.out);
    } else if w.out != [] {
      assert Rewound(start + w.out) == start + Rewound(w.out);
      assert [] + Rewound(w.out) + [EndObject] == Rewound(w.out) + [EndObject];
      assert |Rewound(w.out) + [EndObject]| > 1;
      assert [BeginObject] + [Space] == [BeginObject, Space];
    }
  }

  lemma EndIsShort(s: seq<Lexeme>)
    requires |s| > 1
    ensures s != [EndObject]
  {
  }
}
