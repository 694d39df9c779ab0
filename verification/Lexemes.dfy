/** The token level of JSON text (section 2 of RFC 8259), and the two shared, mutable
    objects that the generated codec works on: the output buffer and the lexer. */
module Lexemes {

  /** A lexeme. Strings and integers are opaque payloads; `Invalid` is text the lexer
      rejects, `Eof` is what the lexer reports at the end of the input. The structural
      characters carry the names of section 2 of RFC 8259. */
  datatype Lexeme =
    | BeginObject | EndObject | BeginArray | EndArray
    | Comma | Colon | Space
    | Str(text: string) | Int(value: int) | Double | Bool | Null
    | Invalid | Eof

  /** The tokens that may start the value of a member. */
  predicate IsValueToken(tok: Lexeme) {
    tok.BeginArray? || tok.BeginObject? || tok.Int? || tok.Double? || tok.Str? || tok.Bool? || tok.Null?
  }

  datatype Scanned = Scanned(tok: Lexeme, rest: seq<Lexeme>)

  /** The next token of `r`, spaces skipped. */
  function ScanFrom(r: seq<Lexeme>): (s: Scanned)
    ensures !s.tok.Space?
    ensures |s.rest| <= |r|
    ensures !s.tok.Eof? ==> |s.rest| < |r|
  {
    if r == [] then Scanned(Eof, [])
    else if r[0].Space? then ScanFrom(r[1..])
    else Scanned(r[0], r[1..])
  }

  /** Scanning a text whose first lexeme is not a space takes exactly that lexeme. */
  lemma ScanHead(x: Lexeme, r: seq<Lexeme>)
    requires !x.Space?
    ensures ScanFrom([x] + r) == Scanned(x, r)
  {
    assert ([x] + r)[1..] == r;
  }

  /** The input without its spaces. */
  function Compact(r: seq<Lexeme>): seq<Lexeme> {
    if r == [] then []
    else if r[0].Space? then Compact(r[1..])
    else [r[0]] + Compact(r[1..])
  }

  lemma {:induction false} CompactScan(r: seq<Lexeme>)
    ensures Compact(r) == [] ==> ScanFrom(r).tok == Eof
    ensures Compact(r) != [] ==>
              Compact(r) == [ScanFrom(r).tok] + Compact(ScanFrom(r).rest) && |ScanFrom(r).rest| < |r|
    decreases r
  {
    if r != [] {
      CompactScan(r[1..]);
    }
  }

  lemma {:induction false} CompactConcat(a: seq<Lexeme>, b: seq<Lexeme>)
    ensures Compact(a + b) == Compact(a) + Compact(b)
    decreases a
  {
    if a == [] {
      assert a + b == b;
    } else {
      CompactConcat(a[1..], b);
      assert (a + b)[1..] == a[1..] + b;
      if !a[0].Space? {
        assert [a[0]] + Compact(a[1..]) + Compact(b) == [a[0]] + (Compact(a[1..]) + Compact(b));
      }
    }
  }

  /** The next token of a text, seen through the spaces. */
  lemma Next(r: seq<Lexeme>)
    requires Compact(r) != []
    ensures ScanFrom(r).tok == Compact(r)[0] && Compact(ScanFrom(r).rest) == Compact(r)[1..] && |ScanFrom(r).rest| < |r|
  {
    CompactScan(r);
  }

  /** What a bracket adds to the nesting depth. */
  function DepthOf(x: Lexeme): int {
    match x
    case BeginObject | BeginArray => 1
    case EndObject | EndArray => -1
    case _ => 0
  }

  /** Openers minus closers. */
  function Depth(s: seq<Lexeme>): int {
    if s == [] then 0 else DepthOf(s[0]) + Depth(s[1..])
  }

  lemma {:induction false} DepthConcat(a: seq<Lexeme>, b: seq<Lexeme>)
    ensures Depth(a + b) == Depth(a) + Depth(b)
  {
    if a == [] {
      assert a + b == b;
    } else {
      DepthConcat(a[1..], b);
      assert (a + b)[1..] == a[1..] + b;
    }
  }

  /** Text without brackets has depth zero. */
  lemma {:induction false} DepthFlat(s: seq<Lexeme>)
    requires forall i :: 0 <= i < |s| ==> DepthOf(s[i]) == 0
    ensures Depth(s) == 0
  {
    if s != [] {
      DepthFlat(s[1..]);
    }
  }

  /** The append-only output buffer, with the one-byte rewind. */
  class Buffer {
    var data: seq<Lexeme>

    constructor ()
      ensures data == []
    {
      data := [];
    }

    method Write(ls: seq<Lexeme>)
      modifies this
      ensures data == old(data) + ls
    {
      data := data + ls;
    }

    /** Erases the last byte. At the level of lexemes this is defined only where the last
        lexeme is a single erasable character, so each call proves that it takes back a
        separator and never content or a bracket. */
    method Rewind()
      requires data != [] && (data[|data| - 1].Comma? || data[|data| - 1].Space?)
      modifies this
      ensures data == old(data)[..|old(data)| - 1]
    {
      data := data[..|data| - 1];
    }
  }

  /** The lexer: a cursor over its input, shared by all nested parsers. */
  class Lexer {
    const input: seq<Lexeme>
    var pos: nat

    ghost predicate Valid() reads this { pos <= |input| }

    ghost function Rest(): seq<Lexeme>
      requires Valid()
      reads this
    {
      input[pos..]
    }

    constructor (text: seq<Lexeme>)
      ensures Valid() && Rest() == text
    {
      input := text;
      pos := 0;
    }

    method Scan() returns (tok: Lexeme)
      requires Valid()
      modifies this
      ensures Valid() && old(pos) <= pos
      ensures Scanned(tok, Rest()) == ScanFrom(old(Rest()))
    {
      while pos < |input| && input[pos].Space?
        invariant old(pos) <= pos <= |input|
        invariant ScanFrom(Rest()) == ScanFrom(old(Rest()))
      {
        assert input[pos..][1..] == input[pos + 1..];
        pos := pos + 1;
      }
      if pos == |input| {
        return Eof;
      }
      assert input[pos..][1..] == input[pos + 1..];
      tok := input[pos];
      pos := pos + 1;
    }
  }
}
