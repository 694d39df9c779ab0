/** The parsers as the generated code runs them: a loop over one shared lexer. */
module Unmarshal {
  import opened Wrappers
  import opened Lexemes
  import opened Structs
  import opened Parser
  import opened ParserSafety

  datatype Outcome<+T> = Done(value: T) | Failed(error: Error)

  /** A method ended as its specification says: same result, and on success same position. */
  ghost predicate Agrees<T>(out: Outcome<T>, lex: Lexer, spec: Parsed<T>)
    requires lex.Valid()
    reads lex
  {
    match spec
    case Ok(v, rest) => out == Done(v) && lex.Rest() == rest
    case Fail(e) => out == Failed(e)
  }

  /** `UnmarshalJSONFFLexer`. In the states that use it, the current key has always been set. */
  method UnmarshalObject(c: Codec, uj0: Obj, state0: State, lex: Lexer) returns (out: Outcome<Obj>)
    requires lex.Valid() && (state0 == MapStart || state0 == WantKey) && Typed(c, uj0)
    modifies lex
    ensures lex.Valid() && old(lex.pos) <= lex.pos
    ensures Agrees(out, lex, ParseObject(c, uj0, state0, Base, old(lex.Rest())))
    decreases |lex.input| - lex.pos, 0
  {
    var uj, state, key := uj0, state0, Base;
    ghost var spec := ParseObject(c, uj0, state0, Base, lex.Rest());
    while true
      invariant lex.Valid() && old(lex.pos) <= lex.pos
      invariant uj.typ == uj0.typ && Typed(c, uj)
      invariant state == WantColon || state == WantValue ==>
                  key != Base && (key.KeyAt? ==> key.index < |uj.fields|)
      invariant ParseObject(c, uj, state, key, lex.Rest()) == spec
      decreases |lex.input| - lex.pos
    {
      var tok := lex.Scan();
      if tok.Invalid? {
        return Failed(TokenError);
      }
      match state
      case MapStart =>
        if !tok.BeginObject? {
          return Failed(WrongToken);
        }
        state := WantKey;
      case AfterValue =>
        if tok.Comma? {
          state := WantKey;
        } else if tok.EndObject? {
          return Done(uj);
        } else {
          return Failed(WrongToken);
        }
      case WantKey =>
        if tok.EndObject? {
          return Done(uj);
        }
        if !tok.Str? {
          return Failed(WrongToken);
        }
        key := Lookup(c, c.fields(uj.typ), tok.text);
        LookupInRange(c, c.fields(uj.typ), tok.text);
        state := WantColon;
      case WantColon =>
        if !tok.Colon? {
          return Failed(WrongToken);
        }
        state := WantValue;
      case WantValue =>
        if !IsValueToken(tok) {
          return Failed(WantedValue);
        }
        if key.KeyAt? {
          HandledFieldIsGood(c, false, c.fields(uj.typ)[key.index].kind, uj.fields[key.index], tok, lex.Rest());
          var h := UnmarshalField(c, c.fields(uj.typ)[key.index].kind, uj.fields[key.index], tok, lex);
          if h.Failed? {
            return Failed(h.error);
          }
          SetFieldGood(c, false, uj, key.index, h.value);
          uj := SetField(uj, key.index, h.value);
        } else {
          var ok := SkipField(c, tok, lex);
          if !ok {
            return Failed(CannotSkip);
          }
        }
        state := AfterValue;
    }
  }

  /** The library's skip of an unknown member, by its result. */
  method SkipField(c: Codec, tok: Lexeme, lex: Lexer) returns (ok: bool)
    requires lex.Valid()
    modifies lex
    ensures lex.Valid() && old(lex.pos) <= lex.pos
    ensures match Skip(c, tok, old(lex.Rest()))
            case None => !ok
            case Some(r') => ok && lex.Rest() == r'
  {
    match c.skip(tok, lex.input[lex.pos..]) {
      case None => ok := false;
      case Some(k) =>
        ok := true;
        if k <= |lex.input| - lex.pos {
          assert lex.input[lex.pos..][k..] == lex.input[lex.pos + k..];
          lex.pos := lex.pos + k;
        } else {
          lex.pos := |lex.input|;
        }
    }
  }

  /** The handlers, entered with the token already read. */
  method UnmarshalField(c: Codec, k: Kind, cur: Value, tok: Lexeme, lex: Lexer) returns (out: Outcome<Value>)
    requires lex.Valid() && TypedValue(c, k, cur)
    modifies lex
    ensures lex.Valid() && old(lex.pos) <= lex.pos
    ensures Agrees(out, lex, HandleField(c, k, cur, tok, old(lex.Rest())))
    decreases |lex.input| - lex.pos, 2
  {
    match k
    case StringKind =>
      return if tok.Null? then Done(cur) else if tok.Str? then Done(StringV(tok.text)) else Failed(CannotUnmarshal);
    case IntKind =>
      return if tok.Null? then Done(cur)
             else if !tok.Int? then Failed(CannotUnmarshal)
             else if IsInt64(tok.value) then Done(IntV(tok.value))
             else Failed(BadInteger);
    case PointerKind(t) =>
      if tok.Null? {
        return Done(PointerV(Nil));
      }
      ZeroIsGood(c, t);
      var uj := if cur.ptr.To? then cur.ptr.target else Zero(c, t);
      var o := UnmarshalObject(c, uj, WantKey, lex);
      return if o.Done? then Done(PointerV(To(o.value))) else Failed(o.error);
    case StringsKind =>
      if tok.Null? {
        return Done(StringsV(None));
      }
      if !tok.BeginArray? {
        return Failed(CannotUnmarshal);
      }
      var ss := UnmarshalStrings(lex);
      return if ss.Done? then Done(StringsV(Some(ss.value))) else Failed(ss.error);
    case PointersKind(t) =>
      if tok.Null? {
        return Done(PointersV(NilSlice));
      }
      if !tok.BeginArray? {
        return Failed(CannotUnmarshal);
      }
      var os := UnmarshalPointers(c, t, lex);
      return if os.Done? then Done(PointersV(Slice(os.value))) else Failed(os.error);
    case TagsKind =>
      if tok.Null? {
        return Done(TagsV(None, []));
      }
      if !tok.BeginObject? {
        return Failed(CannotUnmarshal);
      }
      var m := UnmarshalTags(lex);
      return if m.Done? then Done(TagsV(Some(m.value), [])) else Failed(m.error);
  }

  method UnmarshalStrings(lex: Lexer) returns (out: Outcome<seq<string>>)
    requires lex.Valid()
    modifies lex
    ensures lex.Valid() && old(lex.pos) <= lex.pos
    ensures Agrees(out, lex, ParseStrings([], true, old(lex.Rest())))
  {
    var acc, wantVal := [], true;
    while true
      invariant lex.Valid() && old(lex.pos) <= lex.pos
      invariant ParseStrings(acc, wantVal, lex.Rest()) == ParseStrings([], true, old(lex.Rest()))
      decreases |lex.input| - lex.pos
    {
      var tok := lex.Scan();
      if tok.Invalid? {
        return Failed(TokenError);
      }
      if tok.EndArray? {
        return Done(acc);
      }
      if tok.Comma? {
        if wantVal {
          return Failed(WantedValue);
        }
      } else {
        if !tok.Str? && !tok.Null? {
          return Failed(CannotUnmarshal);
        }
        acc := acc + [if tok.Str? then tok.text else ""];
        wantVal := false;
      }
    }
  }

  /** The array loop over pointers, where end of input is met by the nested parser. */
  method UnmarshalPointers(c: Codec, t: TypeName, lex: Lexer) returns (out: Outcome<seq<Pointer>>)
    requires lex.Valid()
    modifies lex
    ensures lex.Valid() && old(lex.pos) <= lex.pos
    ensures Agrees(out, lex, ParsePointers(c, t, [], true, old(lex.Rest())))
    decreases |lex.input| - lex.pos, 1
  {
    var acc, wantVal := [], true;
    while true
      invariant lex.Valid() && old(lex.pos) <= lex.pos
      invariant ParsePointers(c, t, acc, wantVal, lex.Rest()) == ParsePointers(c, t, [], true, old(lex.Rest()))
      decreases |lex.input| - lex.pos
    {
      var tok := lex.Scan();
      if tok.Invalid? {
        return Failed(TokenError);
      }
      if tok.EndArray? || tok.Null? {
        return Done(acc);
      }
      if tok.Comma? {
        if wantVal {
          return Failed(WantedValue);
        }
      } else {
        ZeroIsGood(c, t);
        var o := UnmarshalObject(c, Zero(c, t), WantKey, lex);
        if o.Failed? {
          return Failed(o.error);
        }
        acc := acc + [To(o.value)];
        wantVal := false;
      }
    }
  }

  method UnmarshalTags(lex: Lexer) returns (out: Outcome<map<string, string>>)
    requires lex.Valid()
    modifies lex
    ensures lex.Valid() && old(lex.pos) <= lex.pos
    ensures Agrees(out, lex, ParseTags(map[], true, old(lex.Rest())))
  {
    var acc: map<string, string>, wantVal := map[], true;
    while true
      invariant lex.Valid() && old(lex.pos) <= lex.pos
      invariant ParseTags(acc, wantVal, lex.Rest()) == ParseTags(map[], true, old(lex.Rest()))
      decreases |lex.input| - lex.pos
    {
      var tok := lex.Scan();
      if tok.Invalid? {
        return Failed(TokenError);
      }
      if tok.EndObject? {
        return Done(acc);
      }
      if tok.Comma? {
        if wantVal {
          return Failed(WantedValue);
        }
      } else {
        if !tok.Str? && !tok.Null? {
          return Failed(CannotUnmarshal);
        }
        var colon := lex.Scan();
        if !colon.Colon? {
          return Failed(WrongToken);
        }
        var val := lex.Scan();
        if !val.Str? && !val.Null? {
          return Failed(CannotUnmarshal);
        }
        acc := acc[(if tok.Str? then tok.text else "") := if val.Str? then val.text else ""];
        wantVal := false;
      }
    }
  }

  /** `UnmarshalJSON`: the whole text, into an existing struct. Text after the closing brace is
      not looked at. */
  method UnmarshalJSON(c: Codec, uj: Obj, text: seq<Lexeme>) returns (out: Outcome<Obj>)
    requires Typed(c, uj)
    ensures match ParseObject(c, uj, MapStart, Base, text)
            case Ok(o, _) => out == Done(o)
            case Fail(e) => out == Failed(e)
  {
    var lex := new Lexer(text);
    out := UnmarshalObject(c, uj, MapStart, lex);
  }
}
