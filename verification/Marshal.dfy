/** The printers as the generated code runs them: each writes to the shared buffer as it goes.
    A struct without `omitempty` fields writes a comma before each member but the first. One with
    such fields writes what stands before the first of them in the same way, then a comma, and a
    comma after each further member; at the end it takes back the last comma, or the padding
    space if it wrote none. */
module Marshal {
  import opened Wrappers
  import opened Lexemes
  import opened Structs
  import opened Printer

  /** What `b` holds without a pending comma. */
  function Settled(b: seq<Lexeme>, first: bool): seq<Lexeme> {
    if first || b == [] then b else b[..|b| - 1]
  }

  /** `b` ends in the padding space or in a pending comma. */
  predicate Pending(b: seq<Lexeme>, first: bool) {
    b != [] && b[|b| - 1] == if first then Space else Comma
  }

  /** `MarshalJSONBuf`, nil receiver included. */
  method MarshalPointer(c: Codec, p: Pointer, buf: Buffer)
    modifies buf
    ensures buf.data == old(buf.data) + PrintPointer(c, p)
    decreases p
  {
    if p.Nil? {
      buf.Write([Null]);
    } else {
      MarshalObject(c, p.target, buf);
    }
  }

  method MarshalObject(c: Codec, o: Obj, buf: Buffer)
    modifies buf
    ensures buf.data == old(buf.data) + PrintObject(c, o)
    decreases o, |o.fields| + 1
  {
    if HasOmitEmpty(c.fields(o.typ)) {
      buf.Write([BeginObject, Space]);
      var cut, k := WriteOpening(c, o, buf);
      if !cut {
        var first;
        cut, first := WriteTrailing(c, o, k, k == 0, buf);
        if !cut {
          buf.Rewind();
          buf.Write([EndObject]);
        }
      }
      PaddedText(old(buf.data), PrintMembers(c, o, 0, true).out);
    } else {
      buf.Write([BeginObject]);
      var cut := WriteSeparated(c, o, 0, true, buf);
      assert old(buf.data) + [BeginObject] + PrintMembers(c, o, 0, true).out == old(buf.data) + PrintObject(c, o);
    }
  }

  /** The members before the first optional field `k`, with a comma between them and one after
      the last. */
  method WriteOpening(c: Codec, o: Obj, buf: Buffer) returns (cut: bool, k: nat)
    requires Pending(buf.data, true)
    modifies buf
    ensures var ms := PrintMembers(c, o, 0, true);
            if cut then ms.cut && ms.out != [EndObject] && buf.data == old(buf.data) + ms.out
            else
              var rest := PrintMembers(c, o, k, k == 0);
              Pending(buf.data, k == 0) && Settled(buf.data, k == 0) + rest.out == old(buf.data) + ms.out && rest.cut == ms.cut
    ensures !cut && k == 0 ==> buf.data == old(buf.data)
    ensures k > 0 ==> PrintMembers(c, o, 0, true).out != [EndObject]
    decreases o, |o.fields|
  {
    hide PrintValue, PrintMembers;
    var fs := c.fields(o.typ);
    cut, k := false, 0;
    while k < |fs| && k < |o.fields| && !fs[k].omitEmpty
      invariant buf.data + PrintMembers(c, o, k, k == 0).out == old(buf.data) + PrintMembers(c, o, 0, true).out
      invariant PrintMembers(c, o, k, k == 0).cut == PrintMembers(c, o, 0, true).cut
      invariant k == 0 ==> buf.data == old(buf.data)
      invariant k > 0 ==> PrintMembers(c, o, 0, true).out != [EndObject]
    {
      MemberUnfold(c, o, k, buf.data);
      if k == 0 {
        NotOnlyEnd(c, o);
      }
      if k != 0 {
        buf.Write([Comma]);
      }
      buf.Write([Str(fs[k].key), Colon]);
      cut := WriteValue(c, o.fields[k], buf);
      k := k + 1;
      if cut {
        return;
      }
    }
    if k > 0 {
      buf.Write([Comma]);
    }
  }

  /** What writing a required member owes to the text. */
  lemma MemberUnfold(c: Codec, o: Obj, k: nat, b: seq<Lexeme>)
    requires k < |c.fields(o.typ)| && k < |o.fields| && !c.fields(o.typ)[k].omitEmpty
    ensures var ms, more := PrintMembers(c, o, k, k == 0), PrintMembers(c, o, k + 1, false);
            var b' := (if k == 0 then b else b + [Comma]) + [Str(c.fields(o.typ)[k].key), Colon] + PrintValue(c, o.fields[k]).out;
            if PrintValue(c, o.fields[k]).cut then ms.cut && b + ms.out == b'
            else ms.cut == more.cut && b + ms.out == b' + more.out
  {
    hide PrintValue;
    var v := PrintValue(c, o.fields[k]).out;
    assert b + ([] + [Str(c.fields(o.typ)[k].key), Colon] + v) == b + [Str(c.fields(o.typ)[k].key), Colon] + v;
  }

  lemma NotOnlyEnd(c: Codec, o: Obj)
    requires |c.fields(o.typ)| > 0 && |o.fields| > 0 && !c.fields(o.typ)[0].omitEmpty
    ensures PrintMembers(c, o, 0, true).out != [EndObject]
  {
    hide PrintValue;
    assert PrintMembers(c, o, 0, true).out[0] == Str(c.fields(o.typ)[0].key);
  }

  lemma PaddedText(b: seq<Lexeme>, ms: seq<Lexeme>)
    ensures b + [BeginObject, Space] + ms == b + ([BeginObject] + [Space] + ms)
    ensures (b + [BeginObject, Space])[..|b| + 1] == b + [BeginObject]
    ensures b + [BeginObject] + [EndObject] == b + ([BeginObject] + [] + [EndObject])
  {
  }

  /** The members of a struct without `omitempty` fields, from field `i` on. */
  method WriteSeparated(c: Codec, o: Obj, i: nat, first: bool, buf: Buffer) returns (cut: bool)
    modifies buf
    ensures buf.data == old(buf.data) + PrintMembers(c, o, i, first).out
    ensures cut == PrintMembers(c, o, i, first).cut
    decreases o, |o.fields| - i
  {
    hide PrintValue;
    var fs := c.fields(o.typ);
    if i >= |fs| || i >= |o.fields| {
      buf.Write([EndObject]);
      return false;
    }
    if Omitted(fs[i], o.fields[i]) {
      cut := WriteSeparated(c, o, i + 1, first, buf);
      return;
    }
    if !first {
      buf.Write([Comma]);
    }
    buf.Write([Str(fs[i].key), Colon]);
    cut := WriteValue(c, o.fields[i], buf);
    if !cut {
      cut := WriteSeparated(c, o, i + 1, false, buf);
    }
  }

  /** The members of a struct with `omitempty` fields, from field `i` on. The buffer ends in
      the padding space (`first`) or in the comma after the last member, before and after. */
  method WriteTrailing(c: Codec, o: Obj, i: nat, first: bool, buf: Buffer) returns (cut: bool, first': bool)
    requires Pending(buf.data, first)
    modifies buf
    ensures cut == PrintMembers(c, o, i, first).cut
    ensures cut ==> buf.data == Settled(old(buf.data), first) + PrintMembers(c, o, i, first).out
    ensures cut ==> PrintMembers(c, o, i, first).out != [EndObject]
    ensures !cut ==> Pending(buf.data, first') &&
                     Settled(buf.data, first') + [EndObject] == Settled(old(buf.data), first) + PrintMembers(c, o, i, first).out
    ensures !cut ==> first' == (first && PrintMembers(c, o, i, first).out == [EndObject])
    ensures cut ==> !first'
    ensures first' ==> buf.data == old(buf.data)
    decreases o, |o.fields| - i
  {
    var fs := c.fields(o.typ);
    if i >= |fs| || i >= |o.fields| {
      return false, first;
    }
    if Omitted(fs[i], o.fields[i]) {
      cut, first' := WriteTrailing(c, o, i + 1, first, buf);
      return;
    }
    ghost var member := [Str(fs[i].key), Colon] + PrintValue(c, o.fields[i]).out;
    buf.Write([Str(fs[i].key), Colon]);
    cut := WriteValue(c, o.fields[i], buf);
    MemberText(old(buf.data), first, fs[i].key, PrintValue(c, o.fields[i]).out, PrintMembers(c, o, i + 1, false).out);
    first' := false;
    if !cut {
      buf.Write([Comma]);
      cut, first' := WriteTrailing(c, o, i + 1, false, buf);
    }
  }

  /** A member written after a pending separator is the separated member of the text. */
  lemma MemberText(b: seq<Lexeme>, first: bool, key: string, v: seq<Lexeme>, tail: seq<Lexeme>)
    requires Pending(b, first)
    ensures var head := (if first then [] else [Comma]) + [Str(key), Colon] + v;
            && b + [Str(key), Colon] + v == Settled(b, first) + head
            && Settled(b + [Str(key), Colon] + v + [Comma], false) + tail == Settled(b, first) + (head + tail)
            && head != [EndObject] && head + tail != [EndObject]
  {
    var head := (if first then [] else [Comma]) + [Str(key), Colon] + v;
    assert first ==> [] + [Str(key), Colon] == [Str(key), Colon];
    assert !first ==> b == Settled(b, first) + [Comma];
    assert head[0] == if first then Str(key) else Comma;
  }

  method WriteValue(c: Codec, v: Value, buf: Buffer) returns (cut: bool)
    modifies buf
    ensures buf.data == old(buf.data) + PrintValue(c, v).out
    ensures cut == PrintValue(c, v).cut
    decreases v
  {
    cut := false;
    match v
    case StringV(s) => buf.Write([Str(s)]);
    case IntV(n) => buf.Write([Int(n)]);
    case PointerV(p) => MarshalPointer(c, p, buf);
    case StringsV(None) => buf.Write([Null]);
    case StringsV(Some(ss)) => WriteStrings(ss, buf);
    case PointersV(NilSlice) => buf.Write([Null]);
    case PointersV(Slice(os)) => cut := WritePointers(c, os, buf);
    case TagsV(None, _) => buf.Write([Null]);
    case TagsV(Some(m), visit) =>
      WriteTags(m, visit, buf);
  }

  method WriteStrings(ss: seq<string>, buf: Buffer)
    modifies buf
    ensures buf.data == old(buf.data) + ([BeginArray] + PrintStrings(ss, true))
  {
    buf.Write([BeginArray]);
    var i := 0;
    while i < |ss|
      invariant i <= |ss|
      invariant buf.data + PrintStrings(ss[i..], i == 0) == old(buf.data) + ([BeginArray] + PrintStrings(ss, true))
    {
      ghost var b, tail := buf.data, PrintStrings(ss[i + 1..], false);
      assert ss[i..][1..] == ss[i + 1..];
      if i != 0 {
        buf.Write([Comma]);
      }
      buf.Write([Str(ss[i])]);
      assert buf.data + tail == b + ((if i == 0 then [] else [Comma]) + [Str(ss[i])] + tail);
      i := i + 1;
    }
    buf.Write([EndArray]);
  }

  /** The array loop over pointers; it returns from the enclosing printer on a nil element. */
  method WritePointers(c: Codec, os: seq<Pointer>, buf: Buffer) returns (cut: bool)
    modifies buf
    ensures buf.data == old(buf.data) + ([BeginArray] + PrintPointers(c, os, true).out)
    ensures cut == PrintPointers(c, os, true).cut
    decreases os
  {
    hide PrintPointers, PrintPointer;
    buf.Write([BeginArray]);
    var i := 0;
    while i < |os|
      invariant i <= |os|
      invariant buf.data + PrintPointers(c, os[i..], i == 0).out == old(buf.data) + ([BeginArray] + PrintPointers(c, os, true).out)
      invariant PrintPointers(c, os[i..], i == 0).cut == PrintPointers(c, os, true).cut
    {
      ghost var b := buf.data;
      PointersUnfold(c, os, i, b);
      if i != 0 {
        buf.Write([Comma]);
      }
      if os[i].Nil? {
        buf.Write([Null]);
        return true;
      }
      MarshalPointer(c, os[i], buf);
      i := i + 1;
    }
    assert os[i..] == [];
    PointersUnfoldEnd(c, i == 0);
    buf.Write([EndArray]);
    return false;
  }

  /** What an iteration of the array loop owes to the text. */
  lemma PointersUnfold(c: Codec, os: seq<Pointer>, i: nat, b: seq<Lexeme>)
    requires i < |os|
    ensures var all, more := PrintPointers(c, os[i..], i == 0), PrintPointers(c, os[i + 1..], false);
            var b' := if i == 0 then b else b + [Comma];
            if os[i].Nil? then all.cut && b + all.out == b' + [Null]
            else all.cut == more.cut && b + all.out == b' + PrintPointer(c, os[i]) + more.out
  {
    hide PrintPointer;
    assert os[i..][0] == os[i] && os[i..][1..] == os[i + 1..];
    assert b + [] == b;
  }

  lemma PointersUnfoldEnd(c: Codec, first: bool)
    ensures PrintPointers(c, [], first) == Printed([EndArray], false)
  {
  }

  /** The map loop, in the order of `visit`. */
  method WriteTags(m: map<string, string>, visit: seq<string>, buf: Buffer)
    modifies buf
    ensures buf.data == old(buf.data) + TagsText(m, visit)
  {
    buf.Write([BeginObject, Space]);
    ghost var start := buf.data;
    var i := 0;
    while i < |visit|
      invariant i <= |visit|
      invariant i == 0 ==> buf.data == start
      invariant Pending(buf.data, i == 0)
      invariant Settled(buf.data, i == 0) + PrintTags(m, visit[i..], i == 0) == start + PrintTags(m, visit, true)
    {
      ghost var b, tail := buf.data, PrintTags(m, visit[i + 1..], false);
      assert visit[i..][1..] == visit[i + 1..];
      buf.Write([Str(visit[i]), Colon]);
      buf.Write([Str(TagAt(m, visit[i])), Comma]);
      TagText(b, i == 0, visit[i], TagAt(m, visit[i]), tail);
      i := i + 1;
    }
    buf.Rewind();
    buf.Write([EndObject]);
    PaddedText(old(buf.data), PrintTags(m, visit, true));
  }

  lemma TagText(b: seq<Lexeme>, first: bool, k: string, x: string, tail: seq<Lexeme>)
    requires Pending(b, first)
    ensures Settled(b + [Str(k), Colon] + [Str(x), Comma], false) + tail
            == Settled(b, first) + ((if first then [] else [Comma]) + [Str(k), Colon, Str(x)] + tail)
  {
    assert !first ==> b == Settled(b, first) + [Comma];
  }

  /** `MarshalJSON`, of a nil or non-nil receiver, into a buffer of its own. */
  method MarshalJSON(c: Codec, p: Pointer) returns (text: seq<Lexeme>)
    ensures text == PrintPointer(c, p)
  {
    var buf := new Buffer();
    MarshalPointer(c, p, buf);
    text := buf.data;
  }
}
