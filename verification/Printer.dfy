/** The text that the generated printers (`MarshalJSONBuf`) produce. The code that writes it, and
    takes back the last comma, is in `Marshal`. */
module Printer {
  import opened Wrappers
  import opened Lexemes
  import opened Structs

  /** What a printer wrote, and whether it returned early on a nil slice element. */
  datatype Printed = Printed(out: seq<Lexeme>, cut: bool)

  /** The text of a struct: strictly separated members between braces, and one padding space
      after the opening brace if some field is `omitempty` and some member is present. */
  function PrintObject(c: Codec, o: Obj): (out: seq<Lexeme>)
    decreases o, |o.fields| + 1, 1
  {
    var ms := PrintMembers(c, o, 0, true).out;
    [BeginObject] + (if HasOmitEmpty(c.fields(o.typ)) && ms != [EndObject] then [Space] else []) + ms
  }

  /** The members from field `i` on, up to and including the closing brace. An early return
      inside a field leaves out all that follows it, the brace included. */
  function PrintMembers(c: Codec, o: Obj, i: nat, first: bool): (p: Printed)
    decreases o, |o.fields| - i, 0
    ensures p.out != []
  {
    var fs := c.fields(o.typ);
    if i >= |fs| || i >= |o.fields| then Printed([EndObject], false)
    else if Omitted(fs[i], o.fields[i]) then PrintMembers(c, o, i + 1, first)
    else
      var v := PrintValue(c, o.fields[i]);
      var head := (if first then [] else [Comma]) + [Str(fs[i].key), Colon] + v.out;
      if v.cut then Printed(head, true)
      else
        var p := PrintMembers(c, o, i + 1, false);
        Printed(head + p.out, p.cut)
  }

  function PrintValue(c: Codec, v: Value): (p: Printed)
    decreases v
    ensures p.out != []
  {
    match v
    case StringV(s) => Printed([Str(s)], false)
    case IntV(n) => Printed([Int(n)], false)
    case PointerV(p) => Printed(PrintPointer(c, p), false)
    case StringsV(None) => Printed([Null], false)
    case StringsV(Some(ss)) => Printed([BeginArray] + PrintStrings(ss, true), false)
    case PointersV(NilSlice) => Printed([Null], false)
    case PointersV(Slice(os)) =>
      var p := PrintPointers(c, os, true);
      Printed([BeginArray] + p.out, p.cut)
    case TagsV(None, _) => Printed([Null], false)
    case TagsV(Some(m), visit) => Printed(TagsText(m, visit), false)
  }

  function PrintPointer(c: Codec, p: Pointer): (out: seq<Lexeme>)
    decreases p
    ensures out != []
  {
    if p.Nil? then [Null] else PrintObject(c, p.target)
  }

  function PrintStrings(ss: seq<string>, first: bool): seq<Lexeme> {
    if ss == [] then [EndArray]
    else (if first then [] else [Comma]) + [Str(ss[0])] + PrintStrings(ss[1..], false)
  }

  /** The elements up to the closing bracket. A nil element is printed as `null` and ends the
      enclosing printer at once. */
  function PrintPointers(c: Codec, os: seq<Pointer>, first: bool): (p: Printed)
    decreases os
  {
    var sep := if first then [] else [Comma];
    if os == [] then Printed([EndArray], false)
    else if os[0].Nil? then Printed(sep + [Null], true)
    else
      var p := PrintPointers(c, os[1..], false);
      Printed(sep + PrintPointer(c, os[0]) + p.out, p.cut)
  }

  function TagsText(m: map<string, string>, visit: seq<string>): (out: seq<Lexeme>)
    ensures out != []
  {
    [BeginObject] + (if visit == [] then [] else [Space]) + PrintTags(m, visit, true)
  }

  function TagAt(m: map<string, string>, k: string): string {
    if k in m then m[k] else ""
  }

  function PrintTags(m: map<string, string>, visit: seq<string>, first: bool): seq<Lexeme> {
    if visit == [] then [EndObject]
    else (if first then [] else [Comma]) + [Str(visit[0]), Colon, Str(TagAt(m, visit[0]))]
         + PrintTags(m, visit[1..], false)
  }
}
