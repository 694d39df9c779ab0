/** What is printed, as JSON. */
module PrintedJson {
  import opened Wrappers
  import opened Lexemes
  import opened Structs
  import opened Printer
  import opened JsonGrammar
  import Balance

  /** The empty values among those that can be marked `omitempty`: a string or slice of length
      zero, and nil. */
  predicate GoEmpty(v: Value) {
    match v
    case StringV(s) => |s| == 0
    case PointerV(p) => p == Nil
    case StringsV(ss) => ss == None || |ss.value| == 0
    case PointersV(os) => os == NilSlice || |os.elems| == 0
    case _ => false
  }

  // The tree of a value -------------------------------------------------------------------------------

  function TreeOf(c: Codec, o: Obj): Json
    decreases o, |o.fields| + 1
  {
    Object(MemberTrees(c, o, 0))
  }

  /** A member for each field in order, but for the empty ones that are marked `omitempty`. */
  function MemberTrees(c: Codec, o: Obj, i: nat): seq<JsonMember>
    decreases o, |o.fields| - i
  {
    var fs := c.fields(o.typ);
    if i >= |fs| || i >= |o.fields| then []
    else if fs[i].omitEmpty && GoEmpty(o.fields[i]) then MemberTrees(c, o, i + 1)
    else [JsonMember(fs[i].key, ValueTree(c, o.fields[i]))] + MemberTrees(c, o, i + 1)
  }

  function ValueTree(c: Codec, v: Value): Json
    decreases v
  {
    match v
    case StringV(s) => Atom(Str(s))
    case IntV(n) => Atom(Int(n))
    case PointerV(p) => PointerTree(c, p)
    case StringsV(ss) => if ss.None? then Atom(Null) else Array(StringTrees(ss.value))
    case PointersV(os) => if os.NilSlice? then Atom(Null) else Array(PointerTrees(c, os.elems))
    case TagsV(m, visit) => if m.None? then Atom(Null) else Object(TagTrees(m.value, visit))
  }

  function PointerTree(c: Codec, p: Pointer): Json
    decreases p
  {
    if p.Nil? then Atom(Null) else TreeOf(c, p.target)
  }

  function StringTrees(ss: seq<string>): seq<Json> {
    if ss == [] then [] else [Atom(Str(ss[0]))] + StringTrees(ss[1..])
  }

  function PointerTrees(c: Codec, os: seq<Pointer>): seq<Json>
    decreases os
  {
    if os == [] then [] else [PointerTree(c, os[0])] + PointerTrees(c, os[1..])
  }

  function TagTrees(m: map<string, string>, visit: seq<string>): seq<JsonMember> {
    if visit == [] then []
    else [JsonMember(visit[0], Atom(Str(if visit[0] in m then m[visit[0]] else "")))] + TagTrees(m, visit[1..])
  }

  // The text is that of the tree ------------------------------------------------------------------------

  /** `text`, without its spaces, followed by `t`. */
  function Then(text: seq<Lexeme>, t: seq<Lexeme>): seq<Lexeme> {
    Compact(text) + t
  }

  lemma ThenConcat(a: seq<Lexeme>, b: seq<Lexeme>, t: seq<Lexeme>)
    ensures Then(a + b, t) == Then(a, Then(b, t))
  {
    CompactConcat(a, b);
    assert Compact(a) + Compact(b) + t == Compact(a) + (Compact(b) + t);
  }

  lemma {:induction false} ThenSolid(a: seq<Lexeme>, t: seq<Lexeme>)
    requires forall i :: 0 <= i < |a| ==> !a[i].Space?
    ensures Then(a, t) == a + t
    decreases a
  {
    if a != [] {
      ThenSolid(a[1..], t);
      assert Compact(a) == [a[0]] + Compact(a[1..]);
      assert Compact(a[1..]) == a[1..] by {
        assert (Compact(a[1..]) + t)[..|Compact(a[1..]) + t| - |t|] == Compact(a[1..]);
        assert (a[1..] + t)[..|a[1..] + t| - |t|] == a[1..];
      }
    }
  }

  lemma OpenText(pad: seq<Lexeme>, text: seq<Lexeme>, t: seq<Lexeme>)
    requires pad == [] || pad == [Space]
    ensures Then([BeginObject] + pad + text, t) == [BeginObject] + Then(text, t)
  {
    ThenConcat([BeginObject] + pad, text, t);
    CompactConcat([BeginObject], pad);
    assert Compact(pad) == [];
    assert Compact([BeginObject] + pad) == [BeginObject];
  }

  lemma {:induction false} ObjectTree(c: Codec, o: Obj, t: seq<Lexeme>)
    requires Typed(c, o) && NoNil(o)
    ensures Then(PrintObject(c, o), t) == JsonText(TreeOf(c, o), t)
    decreases o, |o.fields| + 1
  {
    var ms := PrintMembers(c, o, 0, true).out;
    var pad := if HasOmitEmpty(c.fields(o.typ)) && ms != [EndObject] then [Space] else [];
    OpenText(pad, ms, t);
    MembersTree(c, o, 0, true, t);
  }

  /** What the tree says of the rest of an object. */
  function Rest(ms: seq<JsonMember>, first: bool, t: seq<Lexeme>): seq<Lexeme> {
    if first then MembersText(ms, t) else MoreMembers(ms, t)
  }

  lemma MemberText(key: string, j: Json, ms: seq<JsonMember>, first: bool, t: seq<Lexeme>)
    ensures Rest([JsonMember(key, j)] + ms, first, t)
            == (if first then [] else [Comma]) + [Str(key), Colon] + JsonText(j, MoreMembers(ms, t))
  {
    var all := [JsonMember(key, j)] + ms;
    assert all[1..] == ms;
    var value := JsonText(j, MoreMembers(ms, t));
    assert MembersText(all, t) == [Str(key)] + ([Colon] + value) == [Str(key), Colon] + value;
    assert [Comma] + ([Str(key), Colon] + value) == [Comma] + [Str(key), Colon] + value;
    assert [] + [Str(key), Colon] + value == [Str(key), Colon] + value;
  }

  /** `Omitted` is the printer's test: the field is marked, and its value empty. */
  lemma OmittedIfEmpty(f: Field, v: Value)
    ensures Omitted(f, v) <==> f.omitEmpty && GoEmpty(v)
  {
  }

  lemma {:induction false} MembersTree(c: Codec, o: Obj, i: nat, first: bool, t: seq<Lexeme>)
    requires Typed(c, o) && NoNil(o)
    ensures Then(PrintMembers(c, o, i, first).out, t) == Rest(MemberTrees(c, o, i), first, t)
    decreases o, |o.fields| - i
  {
    hide PrintValue, ValueTree, Compact, JsonText, Omitted, GoEmpty, Then, TypedValue, Rest;
    var fs := c.fields(o.typ);
    if i >= |fs| || i >= |o.fields| {
      EndText(first, t);
    } else {
      FieldOf(c, o, i);
      OmittedIfEmpty(fs[i], o.fields[i]);
      if Omitted(fs[i], o.fields[i]) {
        MembersTree(c, o, i + 1, first, t);
      } else {
        var v, p := PrintValue(c, o.fields[i]).out, PrintMembers(c, o, i + 1, false).out;
        var head := (if first then [] else [Comma]) + [Str(fs[i].key), Colon];
        MembersTree(c, o, i + 1, false, t);
        IsMore(MemberTrees(c, o, i + 1), t);
        ValueText(c, fs[i].kind, o.fields[i], Then(p, t));
        ThenSolid(head, Then(v, Then(p, t)));
        ThenConcat(head, v, Then(p, t));
        ThenConcat(head + v, p, t);
        MemberText(fs[i].key, ValueTree(c, o.fields[i]), MemberTrees(c, o, i + 1), first, t);
        assert head + v + p == PrintMembers(c, o, i, first).out;
      }
    }
  }

  lemma IsMore(ms: seq<JsonMember>, t: seq<Lexeme>)
    ensures Rest(ms, false, t) == MoreMembers(ms, t)
  {
  }

  lemma FieldOf(c: Codec, o: Obj, i: nat)
    requires Typed(c, o) && NoNil(o) && i < |o.fields|
    ensures |o.fields| == |c.fields(o.typ)| && TypedValue(c, c.fields(o.typ)[i].kind, o.fields[i]) && NoNilValue(o.fields[i])
  {
  }

  lemma EndText(first: bool, t: seq<Lexeme>)
    ensures Then([EndObject], t) == Rest([], first, t)
  {
    ThenSolid([EndObject], t);
  }

  lemma {:induction false} ValueText(c: Codec, k: Kind, v: Value, t: seq<Lexeme>)
    requires TypedValue(c, k, v) && NoNilValue(v)
    ensures !PrintValue(c, v).cut && Then(PrintValue(c, v).out, t) == JsonText(ValueTree(c, v), t)
    decreases v
  {
    match v
    case StringV(s) => ThenSolid([Str(s)], t);
    case IntV(n) => ThenSolid([Int(n)], t);
    case PointerV(p) => PointerText(c, k.target, p, t);
    case StringsV(None) => ThenSolid([Null], t);
    case StringsV(Some(ss)) =>
      StringsText(ss, true, t);
      ThenConcat([BeginArray], PrintStrings(ss, true), t);
      ThenSolid([BeginArray], Then(PrintStrings(ss, true), t));
    case PointersV(NilSlice) => ThenSolid([Null], t);
    case PointersV(Slice(os)) =>
      PointersText(c, k.elem, os, true, t);
      ThenConcat([BeginArray], PrintPointers(c, os, true).out, t);
      ThenSolid([BeginArray], Then(PrintPointers(c, os, true).out, t));
    case TagsV(None, _) => ThenSolid([Null], t);
    case TagsV(Some(m), visit) =>
      TagsTextOf(m, visit, true, t);
      OpenText(if visit == [] then [] else [Space], PrintTags(m, visit, true), t);
  }

  lemma {:induction false} PointerText(c: Codec, e: TypeName, p: Pointer, t: seq<Lexeme>)
    requires TypedPointer(c, e, p) && NoNilPointer(p)
    ensures Then(PrintPointer(c, p), t) == JsonText(PointerTree(c, p), t)
    decreases p
  {
    if p.Nil? {
      ThenSolid([Null], t);
    } else {
      ObjectTree(c, p.target, t);
    }
  }

  /** What the tree says of the rest of an array. */
  function Elements(es: seq<Json>, first: bool, t: seq<Lexeme>): seq<Lexeme> {
    if first then ElementsText(es, t) else MoreElements(es, t)
  }

  lemma ElementText(j: Json, es: seq<Json>, first: bool, t: seq<Lexeme>)
    ensures Elements([j] + es, first, t) == (if first then [] else [Comma]) + JsonText(j, MoreElements(es, t))
    ensures Elements(es, false, t) == MoreElements(es, t)
  {
    var all := [j] + es;
    assert all[1..] == es && ElementsText(all, t) == JsonText(j, MoreElements(es, t));
    assert [] + JsonText(j, MoreElements(es, t)) == JsonText(j, MoreElements(es, t));
  }

  lemma EndArrayText(first: bool, t: seq<Lexeme>)
    ensures Then([EndArray], t) == Elements([], first, t)
  {
    ThenSolid([EndArray], t);
  }

  lemma {:induction false} StringsText(ss: seq<string>, first: bool, t: seq<Lexeme>)
    ensures Then(PrintStrings(ss, first), t) == Elements(StringTrees(ss), first, t)
    decreases ss
  {
    hide Then, Elements;
    if ss == [] {
      EndArrayText(first, t);
    } else {
      var more := PrintStrings(ss[1..], false);
      var head := (if first then [] else [Comma]) + [Str(ss[0])];
      StringsText(ss[1..], false, t);
      ThenConcat(head, more, t);
      ThenSolid(head, Then(more, t));
      ElementText(Atom(Str(ss[0])), StringTrees(ss[1..]), first, t);
      assert head + Then(more, t) == (if first then [] else [Comma]) + ([Str(ss[0])] + Then(more, t));
    }
  }

  lemma {:induction false} PointersText(c: Codec, e: TypeName, os: seq<Pointer>, first: bool, t: seq<Lexeme>)
    requires TypedElements(c, e, os) && NoNilElements(os)
    ensures !PrintPointers(c, os, first).cut
    ensures Then(PrintPointers(c, os, first).out, t) == Elements(PointerTrees(c, os), first, t)
    decreases os
  {
    hide Then, Elements, PrintPointer, PointerTree, JsonText, TypedPointer, NoNilPointer, SoundFields;
    if os == [] {
      EndArrayText(first, t);
    } else {
      var more := PrintPointers(c, os[1..], false).out;
      var sep := if first then [] else [Comma];
      var p := PrintPointer(c, os[0]);
      PointersText(c, e, os[1..], false, t);
      PointerText(c, e, os[0], Then(more, t));
      ThenConcat(sep + p, more, t);
      ThenConcat(sep, p, Then(more, t));
      ThenSolid(sep, Then(p, Then(more, t)));
      ElementText(PointerTree(c, os[0]), PointerTrees(c, os[1..]), first, t);
    }
  }

  lemma {:induction false} TagsTextOf(m: map<string, string>, visit: seq<string>, first: bool, t: seq<Lexeme>)
    ensures Then(PrintTags(m, visit, first), t) == Rest(TagTrees(m, visit), first, t)
    decreases visit
  {
    hide Then, Rest;
    if visit == [] {
      EndText(first, t);
    } else {
      var k, x, more := visit[0], TagAt(m, visit[0]), PrintTags(m, visit[1..], false);
      var sep := if first then [] else [Comma];
      var head := sep + [Str(k), Colon, Str(x)];
      TagsTextOf(m, visit[1..], false, t);
      IsMore(TagTrees(m, visit[1..]), t);
      ThenConcat(head, more, t);
      ThenSolid(head, Then(more, t));
      MemberText(k, Atom(Str(x)), TagTrees(m, visit[1..]), first, t);
      assert head + Then(more, t) == sep + [Str(k), Colon] + ([Str(x)] + Then(more, t));
    }
  }

  /** The printed text of a value without nil elements is, spaces apart, that of its tree, and of no
      other. */
  lemma PrintedTree(c: Codec, o: Obj, j: Json)
    requires Typed(c, o) && NoNil(o)
    ensures Compact(PrintObject(c, o)) == JsonText(j, []) <==> j == TreeOf(c, o)
  {
    hide PrintObject, TreeOf, Typed, NoNil;
    ObjectTree(c, o, []);
    assert Compact(PrintObject(c, o)) + [] == Compact(PrintObject(c, o));
    if Compact(PrintObject(c, o)) == JsonText(j, []) {
      SameJson(j, TreeOf(c, o), [], []);
    }
  }

  // Which members there are ---------------------------------------------------------------------------

  ghost predicate HasKey(ms: seq<JsonMember>, key: string) {
    exists m :: m in ms && m.key == key
  }

  lemma {:induction false} LaterKeys(c: Codec, o: Obj, i: nat)
    requires |o.fields| == |c.fields(o.typ)|
    ensures forall m :: m in MemberTrees(c, o, i) ==>
              exists k :: i <= k < |o.fields| && m == JsonMember(c.fields(o.typ)[k].key, ValueTree(c, o.fields[k]))
    decreases |o.fields| - i
  {
    if i < |o.fields| {
      hide ValueTree, GoEmpty;
      LaterKeys(c, o, i + 1);
    }
  }

  lemma {:induction false} MemberIff(c: Codec, o: Obj, i: nat, k: nat)
    requires |o.fields| == |c.fields(o.typ)| && SoundFields(c.fields(o.typ)) && i <= k < |o.fields|
    ensures var f := c.fields(o.typ)[k];
            HasKey(MemberTrees(c, o, i), f.key) <==> !(f.omitEmpty && GoEmpty(o.fields[k]))
    ensures forall m :: m in MemberTrees(c, o, i) && m.key == c.fields(o.typ)[k].key ==> m.value == ValueTree(c, o.fields[k])
    decreases k - i
  {
    hide ValueTree, GoEmpty;
    LaterKeys(c, o, i);
    LaterKeys(c, o, i + 1);
    if i < k {
      MemberIff(c, o, i + 1, k);
    } else {
      var m := JsonMember(c.fields(o.typ)[k].key, ValueTree(c, o.fields[k]));
      if !(c.fields(o.typ)[k].omitEmpty && GoEmpty(o.fields[k])) {
        assert m in MemberTrees(c, o, i);
      }
    }
  }

  /** Which members a printed struct has, on the text alone: whatever JSON object the text is, it
      has the key of a field if and only if the field is not `omitempty` or its value is not empty
      (a string or slice of length above 0, a pointer that is not nil), and under it the value's
      own tree. */
  lemma KeyIsPrintedIff(c: Codec, o: Obj, ms: seq<JsonMember>, i: nat)
    requires Sound(c) && Typed(c, o) && NoNil(o) && i < |o.fields|
    requires Compact(PrintObject(c, o)) == JsonText(Object(ms), [])
    ensures |o.fields| == |c.fields(o.typ)|
    ensures var f, v := c.fields(o.typ)[i], o.fields[i];
            HasKey(ms, f.key) <==>
            (f.omitEmpty ==>
              match v
              case StringV(s) => |s| > 0
              case PointerV(p) => p != Nil
              case StringsV(ss) => ss != None && |ss.value| > 0
              case PointersV(os) => os != NilSlice && |os.elems| > 0
              case _ => true)
    ensures forall m :: m in ms && m.key == c.fields(o.typ)[i].key ==> m.value == ValueTree(c, o.fields[i])
  {
    PrintedTree(c, o, Object(ms));
    assert SoundFields(c.fields(o.typ));
    FieldOf(c, o, i);
    hide ValueTree, MemberTrees, PrintObject, SoundFields;
    MemberIff(c, o, 0, i);
  }

  // Values with nil elements -----------------------------------------------------------------------------

  /** The members of a text, in order: those of the fields `idx`, and the closing brace unless the
      last of them was cut short. */
  function Joined(c: Codec, o: Obj, idx: seq<nat>, first: bool): seq<Lexeme>
    requires forall k :: 0 <= k < |idx| ==> idx[k] < |o.fields| && idx[k] < |c.fields(o.typ)|
  {
    if idx == [] then [EndObject]
    else
      var v := PrintValue(c, o.fields[idx[0]]);
      (if first then [] else [Comma]) + [Str(c.fields(o.typ)[idx[0]].key), Colon] + v.out
      + if v.cut then [] else Joined(c, o, idx[1..], false)
  }

  /** The field is left out. */
  predicate LeftOut(c: Codec, o: Obj, i: nat)
    requires i < |o.fields| && i < |c.fields(o.typ)|
  {
    c.fields(o.typ)[i].omitEmpty && GoEmpty(o.fields[i])
  }

  /** The slice itself holds nil, which ends the printer of the struct. */
  predicate HoldsNil(v: Value) {
    v.PointersV? && v.objs.Slice? && Nil in v.objs.elems
  }

  /** No printed slice from field `i` on and before field `k` holds nil. */
  ghost predicate Clear(c: Codec, o: Obj, i: nat, k: nat)
    requires k < |o.fields| == |c.fields(o.typ)|
  {
    forall l :: i <= l < k && !LeftOut(c, o, l) ==> !HoldsNil(o.fields[l])
  }

  lemma ClearStep(c: Codec, o: Obj, i: nat)
    requires i < |o.fields| == |c.fields(o.typ)|
    ensures Clear(c, o, i, i)
    ensures forall k :: i < k < |o.fields| ==>
              (Clear(c, o, i, k) <==> (LeftOut(c, o, i) || !HoldsNil(o.fields[i])) && Clear(c, o, i + 1, k))
  {
    hide LeftOut, HoldsNil;
  }

  /** Which fields are printed, nil elements or not: in their order, exactly those not left out
      that no printed slice holding nil comes before. */
  lemma {:induction false} FieldsPrinted(c: Codec, o: Obj, i: nat, first: bool) returns (idx: seq<nat>)
    requires Typed(c, o) && i <= |o.fields|
    ensures |o.fields| == |c.fields(o.typ)|
    ensures forall k :: 0 <= k < |idx| ==> i <= idx[k] < |o.fields|
    ensures forall k, l :: 0 <= k < l < |idx| ==> idx[k] < idx[l]
    ensures forall k :: i <= k < |o.fields| ==>
              (k in idx <==> !LeftOut(c, o, k) && Clear(c, o, i, k))
    ensures PrintMembers(c, o, i, first).out == Joined(c, o, idx, first)
    decreases |o.fields| - i
  {
    hide PrintValue, Omitted, GoEmpty, HoldsNil, Typed, LeftOut, Clear, Joined, PrintMembers;
    TypedLength(c, o);
    idx := [];
    if i < |o.fields| {
      PrintableField(c, o, i);
      ClearStep(c, o, i);
      if LeftOut(c, o, i) {
        idx := FieldsPrinted(c, o, i + 1, first);
        LeftOutStep(c, o, i, first);
      } else {
        var more := FieldsPrinted(c, o, i + 1, false);
        idx := if PrintValue(c, o.fields[i]).cut then [i] else [i] + more;
        JoinedStep(c, o, i, more, first);
      }
    } else {
      NoneJoined(c, o, i, first);
    }
  }

  lemma LeftOutStep(c: Codec, o: Obj, i: nat, first: bool)
    requires i < |o.fields| == |c.fields(o.typ)| && Omitted(c.fields(o.typ)[i], o.fields[i])
    ensures PrintMembers(c, o, i, first) == PrintMembers(c, o, i + 1, first)
  {
  }

  lemma NoneJoined(c: Codec, o: Obj, i: nat, first: bool)
    requires i >= |o.fields|
    ensures PrintMembers(c, o, i, first).out == Joined(c, o, [], first)
  {
  }

  lemma TypedLength(c: Codec, o: Obj)
    requires Typed(c, o)
    ensures |o.fields| == |c.fields(o.typ)|
  {
  }

  lemma JoinedStep(c: Codec, o: Obj, i: nat, more: seq<nat>, first: bool)
    requires forall k :: 0 <= k < |more| ==> more[k] < |o.fields| && more[k] < |c.fields(o.typ)|
    requires i < |o.fields| && i < |c.fields(o.typ)| && !Omitted(c.fields(o.typ)[i], o.fields[i])
    requires PrintMembers(c, o, i + 1, false).out == Joined(c, o, more, false)
    ensures PrintMembers(c, o, i, first).out
            == Joined(c, o, if PrintValue(c, o.fields[i]).cut then [i] else [i] + more, first)
  {
    hide PrintValue, Omitted;
    assert ([i] + more)[1..] == more;
    var head := (if first then [] else [Comma]) + [Str(c.fields(o.typ)[i].key), Colon] + PrintValue(c, o.fields[i]).out;
    assert head + [] == head;
  }

  lemma PrintableField(c: Codec, o: Obj, i: nat)
    requires Typed(c, o) && i < |o.fields|
    ensures |o.fields| == |c.fields(o.typ)|
    ensures Omitted(c.fields(o.typ)[i], o.fields[i]) <==> LeftOut(c, o, i)
    ensures PrintValue(c, o.fields[i]).cut <==> HoldsNil(o.fields[i])
  {
    assert TypedValue(c, c.fields(o.typ)[i].kind, o.fields[i]);
    OmittedIfEmpty(c.fields(o.typ)[i], o.fields[i]);
    if o.fields[i].PointersV? && o.fields[i].objs.Slice? {
      CutIffNil(c, o.fields[i].objs.elems, true);
    }
  }

  lemma {:induction false} CutIffNil(c: Codec, os: seq<Pointer>, first: bool)
    ensures PrintPointers(c, os, first).cut <==> Nil in os
    decreases os
  {
    hide PrintPointer;
    if os != [] {
      CutIffNil(c, os[1..], false);
      assert Nil in os <==> os[0] == Nil || Nil in os[1..];
    }
  }

  /** The padding: one space after the opening brace, exactly if some field is marked `omitempty`
      and some member is printed. */
  lemma PaddedIff(c: Codec, o: Obj)
    requires c.fields(o.typ) == [] || |o.fields| == |c.fields(o.typ)|
    ensures |PrintObject(c, o)| > 1
    ensures PrintObject(c, o)[1] == Space <==>
            (exists i :: 0 <= i < |c.fields(o.typ)| && c.fields(o.typ)[i].omitEmpty) && PrintObject(c, o) != [BeginObject, EndObject]
  {
    hide PrintValue, Omitted;
    MembersSolid(c, o, 0, true);
  }

  lemma {:induction false} MembersSolid(c: Codec, o: Obj, i: nat, first: bool)
    ensures var out := PrintMembers(c, o, i, first).out; out[0] != Space && (|out| == 1 <==> out == [EndObject])
    decreases |o.fields| - i
  {
    hide PrintValue, Omitted;
    if i < |o.fields| {
      MembersSolid(c, o, i + 1, first);
    }
  }

  // JSON text is balanced ---------------------------------------------------------------------------

  lemma {:induction false} JsonDepth(j: Json, t: seq<Lexeme>)
    ensures Depth(JsonText(j, t)) == Depth(t)
    decreases j
  {
    match j
    case Atom(tok) => DepthCons(tok, t);
    case Array(es) =>
      ElementsDepth(es, t);
      DepthCons(BeginArray, ElementsText(es, t));
    case Object(ms) =>
      MembersDepth(ms, t);
      DepthCons(BeginObject, MembersText(ms, t));
  }

  lemma DepthCons(x: Lexeme, t: seq<Lexeme>)
    ensures Depth([x] + t) == DepthOf(x) + Depth(t)
  {
    assert ([x] + t)[1..] == t;
  }

  lemma {:induction false} ElementsDepth(es: seq<Json>, t: seq<Lexeme>)
    ensures Depth(ElementsText(es, t)) == Depth(t) - 1
    decreases es
  {
    DepthCons(EndArray, t);
    if es != [] {
      ElementsDepth(es[1..], t);
      DepthCons(Comma, ElementsText(es[1..], t));
      JsonDepth(es[0], MoreElements(es[1..], t));
    }
  }

  lemma {:induction false} MembersDepth(ms: seq<JsonMember>, t: seq<Lexeme>)
    ensures Depth(MembersText(ms, t)) == Depth(t) - 1
    decreases ms
  {
    DepthCons(EndObject, t);
    if ms != [] {
      var value := JsonText(ms[0].value, MoreMembers(ms[1..], t));
      MembersDepth(ms[1..], t);
      DepthCons(Comma, MembersText(ms[1..], t));
      JsonDepth(ms[0].value, MoreMembers(ms[1..], t));
      DepthCons(Colon, value);
      DepthCons(Str(ms[0].key), [Colon] + value);
    }
  }

  lemma {:induction false} CompactDepth(r: seq<Lexeme>)
    ensures Depth(Compact(r)) == Depth(r)
    decreases r
  {
    if r != [] {
      CompactDepth(r[1..]);
      if !r[0].Space? {
        DepthCons(r[0], Compact(r[1..]));
      }
    }
  }

  /** A printed text is JSON text of RFC 8259 if and only if no slice at any depth holds nil. */
  lemma PrintedIsJsonIffNoNil(c: Codec, o: Obj)
    requires Typed(c, o)
    ensures IsJson(Compact(PrintObject(c, o)), []) <==> NoNil(o)
  {
    hide PrintObject, Typed, NoNil, TreeOf;
    var text := Compact(PrintObject(c, o));
    if NoNil(o) {
      PrintedTree(c, o, TreeOf(c, o));
    }
    forall j | text == JsonText(j, []) ensures NoNil(o) {
      JsonDepth(j, []);
      CompactDepth(PrintObject(c, o));
      Balance.BalancedIffNoNil(c, o);
    }
  }
}
