/** The generated parsers (`UnmarshalJSONFFLexer`): a token-driven state machine per struct,
    nested through one shared lexer. */
module Parser {
  import opened Wrappers
  import opened Lexemes
  import opened Structs

  /** The parser states. */
  datatype State = MapStart | AfterValue | WantKey | WantColon | WantValue

  /** `currentKey`. */
  datatype Key = Base | NoSuchKey | KeyAt(index: nat)

  datatype Error =
    | TokenError | WrongToken | WantedValue | CannotUnmarshal | BadInteger | CannotSkip

  datatype Parsed<+T> = Ok(value: T, rest: seq<Lexeme>) | Fail(error: Error)

  /** The first field whose key is exactly `kn`. */
  function ExactKey(fs: seq<Field>, kn: string, i: nat): Option<nat>
    decreases |fs| - i
  {
    if i >= |fs| then None
    else if fs[i].key == kn then Some(i)
    else ExactKey(fs, kn, i + 1)
  }

  /** The last field before `i` whose key equals `kn` up to case; the folded comparisons run
      from the last field to the first. */
  function FoldedKey(c: Codec, fs: seq<Field>, kn: string, i: nat): Key
    requires i <= |fs|
  {
    if i == 0 then NoSuchKey
    else if c.fold(fs[i - 1].key, kn) then KeyAt(i - 1)
    else FoldedKey(c, fs, kn, i - 1)
  }

  function Lookup(c: Codec, fs: seq<Field>, kn: string): Key {
    if kn == "" then NoSuchKey
    else
      match ExactKey(fs, kn, 0)
      case Some(i) => KeyAt(i)
      case None => FoldedKey(c, fs, kn, |fs|)
  }

  /** A scanned key is never the base value, and names a field or none. */
  lemma LookupInRange(c: Codec, fs: seq<Field>, kn: string)
    ensures Lookup(c, fs, kn) != Base
    ensures Lookup(c, fs, kn).KeyAt? ==> Lookup(c, fs, kn).index < |fs|
  {
    LookupIs(c, fs, kn);
  }

  lemma {:induction false} FoldedIs(c: Codec, fs: seq<Field>, kn: string, n: nat)
    requires n <= |fs|
    ensures match FoldedKey(c, fs, kn, n)
            case KeyAt(i) => i < n && c.fold(fs[i].key, kn) && forall j :: i < j < n ==> !c.fold(fs[j].key, kn)
            case NoSuchKey => forall j :: 0 <= j < n ==> !c.fold(fs[j].key, kn)
            case Base => false
  {
    if n > 0 && !c.fold(fs[n - 1].key, kn) {
      FoldedIs(c, fs, kn, n - 1);
    }
  }

  lemma {:induction false} ExactIs(fs: seq<Field>, kn: string, n: nat)
    ensures match ExactKey(fs, kn, n)
            case Some(i) => n <= i < |fs| && fs[i].key == kn && forall j :: n <= j < i ==> fs[j].key != kn
            case None => forall j :: n <= j < |fs| ==> fs[j].key != kn
    decreases |fs| - n
  {
    if n < |fs| && fs[n].key != kn {
      ExactIs(fs, kn, n + 1);
    }
  }

  /** Which field a scanned key names: the first that it is exactly; if there is none, the last
      whose folded comparison accepts it; and none at all if there is none of these either, or
      the key is empty. */
  lemma LookupIs(c: Codec, fs: seq<Field>, kn: string)
    ensures match Lookup(c, fs, kn)
            case Base => false
            case KeyAt(i) =>
              && kn != "" && i < |fs|
              && if fs[i].key == kn then forall j :: 0 <= j < i ==> fs[j].key != kn
                 else
                   && (forall j :: 0 <= j < |fs| ==> fs[j].key != kn)
                   && c.fold(fs[i].key, kn) && forall j :: i < j < |fs| ==> !c.fold(fs[j].key, kn)
            case NoSuchKey =>
              kn == "" || forall j :: 0 <= j < |fs| ==> fs[j].key != kn && !c.fold(fs[j].key, kn)
  {
    ExactIs(fs, kn, 0);
    FoldedIs(c, fs, kn, |fs|);
  }

  /** What is left after skipping the value that starts with `tok`. */
  function Skip(c: Codec, tok: Lexeme, r: seq<Lexeme>): Option<seq<Lexeme>> {
    match c.skip(tok, r)
    case None => None
    case Some(k) => Some(if k <= |r| then r[k..] else [])
  }

  function SetField(o: Obj, i: nat, v: Value): Obj {
    if i < |o.fields| then o.(fields := o.fields[i := v]) else o
  }

  /** The integers that a field takes. */
  lemma IntegerRange(c: Codec, cur: Value, n: int, r: seq<Lexeme>)
    ensures HandleField(c, IntKind, cur, Int(n), r)
            == if -9223372036854775808 <= n <= 9223372036854775807 then Ok(IntV(n), r) else Fail(BadInteger)
  {
  }

  /** One struct, from `state` on, into `uj`. */
  function ParseObject(c: Codec, uj: Obj, state: State, key: Key, r: seq<Lexeme>): (res: Parsed<Obj>)
    decreases |r|, 0
    ensures res.Ok? ==> |res.rest| < |r|
  {
    var s := ScanFrom(r);
    if s.tok.Invalid? then Fail(TokenError)
    else if s.tok.Eof? then Fail(if state == WantValue then WantedValue else WrongToken)
    else
      match state
      case MapStart =>
        if s.tok.BeginObject? then ParseObject(c, uj, WantKey, key, s.rest) else Fail(WrongToken)
      case AfterValue =>
        if s.tok.Comma? then ParseObject(c, uj, WantKey, key, s.rest)
        else if s.tok.EndObject? then Ok(uj, s.rest)
        else Fail(WrongToken)
      case WantKey =>
        if s.tok.EndObject? then Ok(uj, s.rest)
        else if s.tok.Str? then
          ParseObject(c, uj, WantColon, Lookup(c, c.fields(uj.typ), s.tok.text), s.rest)
        else Fail(WrongToken)
      case WantColon =>
        if s.tok.Colon? then ParseObject(c, uj, WantValue, key, s.rest) else Fail(WrongToken)
      case WantValue =>
        if !IsValueToken(s.tok) then Fail(WantedValue)
        else
          match key
          case Base => ParseObject(c, uj, state, key, s.rest)
          case NoSuchKey =>
            (match Skip(c, s.tok, s.rest)
             case None => Fail(CannotSkip)
             case Some(r') => ParseObject(c, uj, AfterValue, key, r'))
          case KeyAt(i) =>
            if i < |uj.fields| && i < |c.fields(uj.typ)| then
              match HandleField(c, c.fields(uj.typ)[i].kind, uj.fields[i], s.tok, s.rest)
              case Ok(v, r') => ParseObject(c, SetField(uj, i, v), AfterValue, key, r')
              case Fail(e) => Fail(e)
            else ParseObject(c, uj, state, key, s.rest)
  }

  lemma NothingFromNothing(c: Codec, uj: Obj)
    ensures ParseObject(c, uj, WantKey, Base, []).Fail?
  {
  }

  /** The handler of a field of kind `k` that holds `cur`, entered at the token `tok`. */
  function HandleField(c: Codec, k: Kind, cur: Value, tok: Lexeme, r: seq<Lexeme>): (res: Parsed<Value>)
    decreases |r|, 2
    ensures res.Ok? ==> |res.rest| <= |r|
  {
    match k
    case StringKind =>
      if tok.Null? then Ok(cur, r) else if tok.Str? then Ok(StringV(tok.text), r) else Fail(CannotUnmarshal)
    case IntKind =>
      if tok.Null? then Ok(cur, r)
      else if !tok.Int? then Fail(CannotUnmarshal)
      else if IsInt64(tok.value) then Ok(IntV(tok.value), r)
      else Fail(BadInteger)
    case PointerKind(t) =>
      if tok.Null? then Ok(PointerV(Nil), r)
      else
        var uj := if cur.PointerV? && cur.ptr.To? then cur.ptr.target else Zero(c, t);
        (match ParseObject(c, uj, WantKey, Base, r)
         case Ok(o, r') => Ok(PointerV(To(o)), r')
         case Fail(e) => Fail(e))
    case StringsKind =>
      if tok.Null? then Ok(StringsV(None), r)
      else if !tok.BeginArray? then Fail(CannotUnmarshal)
      else
        (match ParseStrings([], true, r)
         case Ok(ss, r') => Ok(StringsV(Some(ss)), r')
         case Fail(e) => Fail(e))
    case PointersKind(t) =>
      if tok.Null? then Ok(PointersV(NilSlice), r)
      else if !tok.BeginArray? then Fail(CannotUnmarshal)
      else
        (match ParsePointers(c, t, [], true, r)
         case Ok(os, r') => Ok(PointersV(Slice(os)), r')
         case Fail(e) => Fail(e))
    case TagsKind =>
      if tok.Null? then Ok(TagsV(None, []), r)
      else if !tok.BeginObject? then Fail(CannotUnmarshal)
      else
        (match ParseTags(map[], true, r)
         case Ok(m, r') => Ok(TagsV(Some(m), []), r')
         case Fail(e) => Fail(e))
  }

  /** The elements of a []string. */
  function ParseStrings(acc: seq<string>, wantVal: bool, r: seq<Lexeme>): (res: Parsed<seq<string>>)
    decreases |r|
    ensures res.Ok? ==> |res.rest| < |r|
  {
    var s := ScanFrom(r);
    match s.tok
    case Invalid => Fail(TokenError)
    case EndArray => Ok(acc, s.rest)
    case Comma => if wantVal then Fail(WantedValue) else ParseStrings(acc, wantVal, s.rest)
    case Null => ParseStrings(acc + [""], false, s.rest)
    case Str(x) => ParseStrings(acc + [x], false, s.rest)
    case _ => Fail(CannotUnmarshal)
  }

  /** The elements of a []*T. A `null` element leaves the loop, and the array, at once. Any
      other token starts an element, as if it were an opening brace. */
  function ParsePointers(c: Codec, t: TypeName, acc: seq<Pointer>, wantVal: bool, r: seq<Lexeme>)
    : (res: Parsed<seq<Pointer>>)
    decreases |r|, 1
    ensures res.Ok? ==> |res.rest| < |r|
  {
    var s := ScanFrom(r);
    if s.tok.Invalid? then Fail(TokenError)
    else if s.tok.EndArray? then Ok(acc, s.rest)
    else if s.tok.Comma? then
      if wantVal then Fail(WantedValue) else ParsePointers(c, t, acc, wantVal, s.rest)
    else if s.tok.Null? then Ok(acc, s.rest)
    else
      match ParseObject(c, Zero(c, t), WantKey, Base, s.rest)
      case Ok(o, r') => ParsePointers(c, t, acc + [To(o)], false, r')
      case Fail(e) => Fail(e)
  }

  /** A string token or `null`, which stands for the empty string. */
  function StringOrNull(tok: Lexeme): Option<string> {
    if tok.Null? then Some("") else if tok.Str? then Some(tok.text) else None
  }

  /** The members of a map[string]string. */
  function ParseTags(acc: map<string, string>, wantVal: bool, r: seq<Lexeme>): (res: Parsed<map<string, string>>)
    decreases |r|
    ensures res.Ok? ==> |res.rest| < |r|
  {
    var s := ScanFrom(r);
    if s.tok.Invalid? then Fail(TokenError)
    else if s.tok.EndObject? then Ok(acc, s.rest)
    else if s.tok.Comma? then
      if wantVal then Fail(WantedValue) else ParseTags(acc, wantVal, s.rest)
    else if StringOrNull(s.tok).None? then Fail(CannotUnmarshal)
    else
      var colon := ScanFrom(s.rest);
      var val := ScanFrom(colon.rest);
      if !colon.tok.Colon? then Fail(WrongToken)
      else if StringOrNull(val.tok).None? then Fail(CannotUnmarshal)
      else ParseTags(acc[StringOrNull(s.tok).value := StringOrNull(val.tok).value], false, val.rest)
  }
}
