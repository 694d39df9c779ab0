/** The registrar: a table of entries by service name, changed by the shims' requests. */
module Registry {
  import opened Wrappers
  import opened Addresses

  type int32 = x: int | -0x8000_0000 <= x < 0x8000_0000

  /** The library functions between addresses and text, the text of which is not part of this
      model. */
  datatype Net = Net(parseIP: string -> IP, ipString: IP -> string)

  datatype Entry = Entry(
    frontendIP: IP, frontendPort: int32, backendIP: IP, backendPort: int32,
    serviceName: string, environmentName: string, proxyMode: string)

  /** A request; the action is an open integer on the wire. */
  datatype Request = Request(
    action: int, frontendAddr: string, frontendPort: int32, backendAddr: string, backendPort: int32,
    serviceName: string, environmentName: string, proxyMode: string)

  const REGISTER := 0
  const DEREGISTER := 1

  function RequestToEntry(net: Net, req: Request): Entry {
    Entry(net.parseIP(req.frontendAddr), req.frontendPort, net.parseIP(req.backendAddr), req.backendPort,
          req.serviceName, req.environmentName, req.proxyMode)
  }

  // Service names ---------------------------------------------------------------------------

  function Digit(d: nat): char
    requires d < 10
  {
    ['0', '1', '2', '3', '4', '5', '6', '7', '8', '9'][d]
  }

  function Decimal(n: nat): (s: string)
    ensures |s| > 0
  {
    if n < 10 then [Digit(n)] else Decimal(n / 10) + [Digit(n % 10)]
  }

  /** `%d`. */
  function Rendered(n: int): string {
    if n < 0 then "-" + Decimal(-n) else Decimal(n)
  }

  function BaseName(serviceName: string, environmentName: string): string {
    var name := serviceName + (if environmentName != "" then "-" + environmentName else "");
    if name == "" then "unknown-" else name
  }

  function NameOn(base: string, port: int): string {
    base + "-" + Rendered(port)
  }

  function SvcName(e: Entry): string {
    NameOn(BaseName(e.serviceName, e.environmentName), e.frontendPort)
  }

  function NameOf(req: Request): string {
    NameOn(BaseName(req.serviceName, req.environmentName), req.frontendPort)
  }

  lemma {:induction false} DecimalHasNoDash(n: nat)
    ensures forall i :: 0 <= i < |Decimal(n)| ==> Decimal(n)[i] != '-'
  {
    if n >= 10 {
      DecimalHasNoDash(n / 10);
    }
  }

  lemma {:induction false} DecimalInjective(m: nat, n: nat)
    requires Decimal(m) == Decimal(n)
    ensures m == n
  {
    if m < 10 && n < 10 {
      assert Digit(m) == Digit(n);
    } else if m >= 10 && n >= 10 {
      var a, b := Decimal(m / 10), Decimal(n / 10);
      assert a == (a + [Digit(m % 10)])[..|a|] && b == (b + [Digit(n % 10)])[..|b|];
      assert |a| == |b| && Digit(m % 10) == Digit(n % 10);
      DecimalInjective(m / 10, n / 10);
    }
  }

  /** The number that a string of digits writes. */
  function Numeral(s: string): int {
    if s == [] then 0 else 10 * Numeral(s[..|s| - 1]) + (s[|s| - 1] as int - '0' as int)
  }

  /** `Decimal` is the base-10 numeral, without leading zeros. */
  lemma {:induction false} DecimalIsNumeral(n: nat)
    ensures forall i :: 0 <= i < |Decimal(n)| ==> '0' <= Decimal(n)[i] <= '9'
    ensures Numeral(Decimal(n)) == n
    ensures n > 0 ==> Decimal(n)[0] != '0'
    ensures n == 0 ==> Decimal(n) == "0"
  {
    DigitIsDigit(n % 10);
    if n >= 10 {
      DecimalIsNumeral(n / 10);
      assert Decimal(n)[..|Decimal(n)| - 1] == Decimal(n / 10);
    } else {
      assert Numeral(Decimal(n)[..|Decimal(n)| - 1]) == 0;
    }
  }

  lemma DigitIsDigit(d: nat)
    requires d < 10
    ensures '0' <= Digit(d) <= '9' && Digit(d) as int - '0' as int == d
  {
  }

  /** `%d` writes a minus sign, if it has to, and the numeral. */
  lemma RenderedIsNumeral(n: int)
    ensures n >= 0 ==> Numeral(Rendered(n)) == n && '0' <= Rendered(n)[0] <= '9'
    ensures n < 0 ==> Rendered(n)[0] == '-' && Numeral(Rendered(n)[1..]) == -n && '0' < Rendered(n)[1] <= '9'
  {
    DecimalIsNumeral(if n < 0 then -n else n);
    if n < 0 {
      assert Rendered(n)[1..] == Decimal(-n);
    }
  }

  /** A string splits at its last dash in one way only. */
  lemma LastDash(a: string, d: string, b: string, e: string)
    requires a + "-" + d == b + "-" + e
    requires forall i :: 0 <= i < |d| ==> d[i] != '-'
    requires forall i :: 0 <= i < |e| ==> e[i] != '-'
    ensures a == b && d == e
  {
    var s := a + "-" + d;
    assert s[|a|] == '-' && s[|b|] == '-';
    assert a == s[..|a|] && b == s[..|b|] && d == s[|a| + 1..] && e == s[|b| + 1..];
  }

  /** What stands before and after the last dash of a name. */
  function BeforeDash(base: string, port: int): string {
    if port < 0 then base + "-" else base
  }

  lemma NameSplit(base: string, port: int)
    ensures NameOn(base, port) == BeforeDash(base, port) + "-" + Decimal(if port < 0 then -port else port)
  {
    assert port < 0 ==> base + "-" + ("-" + Decimal(-port)) == base + "-" + "-" + Decimal(-port);
  }

  /** When two names are the same. For ports that are not negative: exactly when base and port
      agree. A negative port p also meets port -p on the base with a dash appended. */
  lemma SameName(a: string, p: int, b: string, q: int)
    ensures NameOn(a, p) == NameOn(b, q) <==>
            (a == b && p == q) || (p < 0 && q == -p && b == a + "-") || (q < 0 && p == -q && a == b + "-")
  {
    NameSplit(a, p);
    NameSplit(b, q);
    var m, n := if p < 0 then -p else p, if q < 0 then -q else q;
    if NameOn(a, p) == NameOn(b, q) {
      DecimalHasNoDash(m);
      DecimalHasNoDash(n);
      LastDash(BeforeDash(a, p), Decimal(m), BeforeDash(b, q), Decimal(n));
      DecimalInjective(m, n);
      assert p < 0 && q < 0 ==> a == (a + "-")[..|a|] && b == (b + "-")[..|b|];
    }
  }

  // The table ---------------------------------------------------------------------------------

  type Table = map<string, Entry>

  /** One request's effect. */
  function Apply(net: Net, t: Table, req: Request): Table {
    if req.action == REGISTER then t[NameOf(req) := RequestToEntry(net, req)]
    else if req.action == DEREGISTER then t - {NameOf(req)}
    else t
  }

  /** What the numbers on the wire do: 0 registers, 1 deregisters, no other does anything. */
  lemma WireActions(net: Net, t: Table, req: Request)
    ensures req.action == 0 ==> Apply(net, t, req) == t[SvcName(RequestToEntry(net, req)) := RequestToEntry(net, req)]
    ensures req.action == 1 ==> Apply(net, t, req) == t - {SvcName(RequestToEntry(net, req))}
    ensures req.action != 0 && req.action != 1 ==> Apply(net, t, req) == t
  {
    EntryName(net, req);
    hide SvcName, NameOf;
  }

  /** A run of requests, in the order in which the lock was taken. */
  function Run(net: Net, t: Table, reqs: seq<Request>): Table {
    if reqs == [] then t else Apply(net, Run(net, t, reqs[..|reqs| - 1]), reqs[|reqs| - 1])
  }

  /** Every entry is filed under its own name. */
  ghost predicate Consistent(t: Table) {
    forall n :: n in t ==> SvcName(t[n]) == n
  }

  lemma {:induction false} RunConsistent(net: Net, t: Table, reqs: seq<Request>)
    requires Consistent(t)
    ensures Consistent(Run(net, t, reqs))
    decreases reqs
  {
    if reqs != [] {
      hide SvcName, NameOf;
      RunConsistent(net, t, reqs[..|reqs| - 1]);
      assert SvcName(RequestToEntry(net, reqs[|reqs| - 1])) == NameOf(reqs[|reqs| - 1]) by { EntryName(net, reqs[|reqs| - 1]); }
    }
  }

  lemma EntryName(net: Net, req: Request)
    ensures SvcName(RequestToEntry(net, req)) == NameOf(req)
  {
  }

  /** `name` is that of a service, case by case over its own strings. */
  ghost predicate IsNameOf(name: string, serviceName: string, environmentName: string, port: int) {
    && (serviceName != "" && environmentName != "" ==> name == serviceName + "-" + environmentName + "-" + Rendered(port))
    && (serviceName != "" && environmentName == "" ==> name == serviceName + "-" + Rendered(port))
    && (serviceName == "" && environmentName != "" ==> name == "-" + environmentName + "-" + Rendered(port))
    && (serviceName == "" && environmentName == "" ==> name == "unknown--" + Rendered(port))
  }

  lemma NameByCases(req: Request, name: string)
    ensures name == NameOf(req) <==> IsNameOf(name, req.serviceName, req.environmentName, req.frontendPort)
  {
    hide Rendered;
    var s, e, d := req.serviceName, req.environmentName, Rendered(req.frontendPort);
    assert "" + ("-" + e) == "-" + e && s + "" == s && "" + "" == "";
    assert s + ("-" + e) + "-" + d == s + "-" + e + "-" + d;
    assert "unknown-" + "-" + d == "unknown--" + d;
  }

  /** Where a request is filed, and as what. */
  lemma Filed(net: Net, t: Table, req: Request, name: string)
    requires IsNameOf(name, req.serviceName, req.environmentName, req.frontendPort)
    ensures req.action == REGISTER ==>
              name in Apply(net, t, req) &&
              Apply(net, t, req)[name] == Entry(net.parseIP(req.frontendAddr), req.frontendPort, net.parseIP(req.backendAddr),
                                                req.backendPort, req.serviceName, req.environmentName, req.proxyMode)
    ensures req.action == DEREGISTER ==> name !in Apply(net, t, req)
    ensures forall n :: n != name ==> Lookup(Apply(net, t, req), n) == Lookup(t, n)
  {
    NameByCases(req, name);
    hide NameOf;
  }

  /** The registrar understands `r`, and it is about `n`. */
  predicate About(r: Request, n: string) {
    (r.action == REGISTER || r.action == DEREGISTER) && NameOf(r) == n
  }

  /** The last request of a run that is about `n` and that the registrar understands. */
  function LastAbout(reqs: seq<Request>, n: string): Option<Request> {
    if reqs == [] then None
    else
      var r := reqs[|reqs| - 1];
      if About(r, n) then Some(r)
      else LastAbout(reqs[..|reqs| - 1], n)
  }

  function Lookup(t: Table, n: string): Option<Entry> {
    if n in t then Some(t[n]) else None
  }

  /** Last writer wins, name by name. */
  lemma {:induction false} LastWriterWins(net: Net, t: Table, reqs: seq<Request>, n: string)
    ensures Lookup(Run(net, t, reqs), n)
            == match LastAbout(reqs, n)
               case None => Lookup(t, n)
               case Some(r) => if r.action == REGISTER then Some(RequestToEntry(net, r)) else None
    decreases reqs
  {
    if reqs != [] {
      hide NameOf;
      LastWriterWins(net, t, reqs[..|reqs| - 1], n);
    }
  }

  // Isolation between ports -------------------------------------------------------------------

  /** The entries that a shim on port `p` sees as its own. */
  function OnPort(t: Table, p: int): Table {
    map n | n in t && t[n].frontendPort == p :: t[n]
  }

  function RequestsOnPort(reqs: seq<Request>, p: int): seq<Request> {
    if reqs == [] then []
    else
      var r := reqs[|reqs| - 1];
      RequestsOnPort(reqs[..|reqs| - 1], p) + (if r.frontendPort == p then [r] else [])
  }

  /** Where the last word on `n` stands in a run, or -1. */
  lemma {:induction false} LastAboutAt(reqs: seq<Request>, n: string) returns (i: int)
    ensures -1 <= i < |reqs| && forall k :: i < k < |reqs| ==> !About(reqs[k], n)
    ensures if i < 0 then LastAbout(reqs, n) == None else About(reqs[i], n) && LastAbout(reqs, n) == Some(reqs[i])
    decreases reqs
  {
    hide NameOf;
    i := |reqs| - 1;
    if i >= 0 && !About(reqs[i], n) {
      i := LastAboutAt(reqs[..i], n);
    }
  }

  /** Where the last word of port `p` on `n` stands, or -1. */
  lemma {:induction false} LastOfPortAt(reqs: seq<Request>, p: int, n: string) returns (i: int)
    ensures -1 <= i < |reqs| && forall k :: i < k < |reqs| ==> !(About(reqs[k], n) && reqs[k].frontendPort == p)
    ensures var l := LastAbout(RequestsOnPort(reqs, p), n);
            if i < 0 then l == None else About(reqs[i], n) && reqs[i].frontendPort == p && l == Some(reqs[i])
    decreases reqs
  {
    hide NameOf;
    i := |reqs| - 1;
    if i >= 0 {
      var own := RequestsOnPort(reqs[..i], p);
      assert (own + [reqs[i]])[..|own|] == own && own + [] == own;
      if !(About(reqs[i], n) && reqs[i].frontendPort == p) {
        i := LastOfPortAt(reqs[..i], p, n);
      }
    }
  }

  /** Another port has spoken about the name that request `i` registers, and the port of `i` has
      not spoken about it again. */
  ghost predicate TakenOver(reqs: seq<Request>, i: nat)
    requires i < |reqs|
  {
    && reqs[i].action == REGISTER
    && (exists j :: i < j < |reqs| && About(reqs[j], NameOf(reqs[i])) && reqs[j].frontendPort != reqs[i].frontendPort)
    && (forall k :: i < k < |reqs| && About(reqs[k], NameOf(reqs[i])) ==> reqs[k].frontendPort != reqs[i].frontendPort)
  }

  /** One port and one name. */
  lemma ProjectionAt(net: Net, reqs: seq<Request>, p: int, n: string)
    ensures Lookup(OnPort(Run(net, map[], reqs), p), n) == Lookup(Run(net, map[], RequestsOnPort(reqs, p)), n)
            <==> forall i :: 0 <= i < |reqs| && NameOf(reqs[i]) == n && reqs[i].frontendPort == p ==> !TakenOver(reqs, i)
  {
    hide NameOf, Run, LastAbout, RequestsOnPort;
    LastWriterWins(net, map[], reqs, n);
    LastWriterWins(net, map[], RequestsOnPort(reqs, p), n);
    var last := LastAboutAt(reqs, n);
    var own := LastOfPortAt(reqs, p, n);
    assert own <= last;
    if own >= 0 && reqs[own].action == REGISTER && own < last {
      assert TakenOver(reqs, own);
    }
    forall i | 0 <= i < |reqs| && NameOf(reqs[i]) == n && reqs[i].frontendPort == p && TakenOver(reqs, i)
      ensures i == own && own < last
    {
      assert About(reqs[i], n);
    }
  }

  /** Isolation between ports, exactly: in any interleaving, the entries held for each port are
      those that its own requests produce in their own order, if and only if no registration is
      taken over by another port. */
  lemma ProjectionIffNoneTakenOver(net: Net, reqs: seq<Request>)
    ensures (forall p: int :: OnPort(Run(net, map[], reqs), p) == Run(net, map[], RequestsOnPort(reqs, p)))
            <==> forall i :: 0 <= i < |reqs| ==> !TakenOver(reqs, i)
  {
    hide NameOf, Run, RequestsOnPort, OnPort, TakenOver;
    if forall i :: 0 <= i < |reqs| ==> !TakenOver(reqs, i) {
      forall p: int ensures OnPort(Run(net, map[], reqs), p) == Run(net, map[], RequestsOnPort(reqs, p)) {
        forall n ensures Lookup(OnPort(Run(net, map[], reqs), p), n) == Lookup(Run(net, map[], RequestsOnPort(reqs, p)), n) {
          ProjectionAt(net, reqs, p, n);
        }
        SameLookups(OnPort(Run(net, map[], reqs), p), Run(net, map[], RequestsOnPort(reqs, p)));
      }
    } else {
      var i :| 0 <= i < |reqs| && TakenOver(reqs, i);
      var p := reqs[i].frontendPort;
      ProjectionAt(net, reqs, p, NameOf(reqs[i]));
      assert OnPort(Run(net, map[], reqs), p) != Run(net, map[], RequestsOnPort(reqs, p));
    }
  }

  /** No two requests of the run share a name on different ports. */
  ghost predicate NoClash(reqs: seq<Request>) {
    forall i, j :: 0 <= i < |reqs| && 0 <= j < |reqs| && NameOf(reqs[i]) == NameOf(reqs[j]) ==>
      reqs[i].frontendPort == reqs[j].frontendPort
  }

  /** Without a clash of names, whatever the ports, each port is isolated. */
  lemma PortProjection(net: Net, reqs: seq<Request>, p: int)
    requires NoClash(reqs)
    ensures OnPort(Run(net, map[], reqs), p) == Run(net, map[], RequestsOnPort(reqs, p))
  {
    hide NameOf, Run, RequestsOnPort, OnPort;
    ProjectionIffNoneTakenOver(net, reqs);
  }

  /** The names of two requests clash exactly when one port is negative, the other its opposite,
      and the other base the one base with a dash appended. */
  predicate Clash(a: Request, b: Request) {
    var x, y := BaseName(a.serviceName, a.environmentName), BaseName(b.serviceName, b.environmentName);
    || (a.frontendPort < 0 && a.frontendPort + b.frontendPort == 0 && y == x + "-")
    || (b.frontendPort < 0 && a.frontendPort + b.frontendPort == 0 && x == y + "-")
  }

  lemma ClashIffSameName(a: Request, b: Request)
    ensures Clash(a, b) <==> NameOf(a) == NameOf(b) && a.frontendPort != b.frontendPort
  {
    hide BaseName, NameOn;
    SameName(BaseName(a.serviceName, a.environmentName), a.frontendPort,
             BaseName(b.serviceName, b.environmentName), b.frontendPort);
  }

  /** Real ports never clash. */
  lemma RealPortsDoNotClash(reqs: seq<Request>)
    requires forall i :: 0 <= i < |reqs| ==> reqs[i].frontendPort >= 0
    ensures NoClash(reqs)
  {
    hide NameOf;
    forall i, j | 0 <= i < |reqs| && 0 <= j < |reqs| && NameOf(reqs[i]) == NameOf(reqs[j])
      ensures reqs[i].frontendPort == reqs[j].frontendPort
    {
      ClashIffSameName(reqs[i], reqs[j]);
    }
  }

  /** A registration and a deregistration: the second leaves the port of the first alone if and
      only if their names do not clash. */
  lemma PairProjection(net: Net, a: Request, b: Request)
    requires a.action == REGISTER && b.action == DEREGISTER
    ensures (forall p: int :: OnPort(Run(net, map[], [a, b]), p) == Run(net, map[], RequestsOnPort([a, b], p))) <==> !Clash(a, b)
  {
    hide NameOf, Run, RequestsOnPort, OnPort, Clash;
    ProjectionIffNoneTakenOver(net, [a, b]);
    ClashIffSameName(a, b);
    if Clash(a, b) {
      assert About([a, b][1], NameOf([a, b][0]));
      assert TakenOver([a, b], 0);
    }
  }

  /** Such a clash: the shim of service "a" on port -5, and that of service "a-" on port 5. */
  lemma NegativePortCollides(net: Net)
    ensures var a := Request(REGISTER, "", -5, "", 0, "a", "", "tcp");
            var b := Request(DEREGISTER, "", 5, "", 0, "a-", "", "tcp");
            Clash(a, b) && OnPort(Run(net, map[], [a, b]), -5) != Run(net, map[], RequestsOnPort([a, b], -5))
  {
    var a := Request(REGISTER, "", -5, "", 0, "a", "", "tcp");
    var b := Request(DEREGISTER, "", 5, "", 0, "a-", "", "tcp");
    assert BaseName("a", "") == "a" + "" == "a" && BaseName("a-", "") == "a-" + "" == "a-" == "a" + "-";
    hide NameOf, Run, RequestsOnPort, OnPort, BaseName;
    assert Clash(a, b);
    ClashIffSameName(a, b);
    assert About([a, b][1], NameOf([a, b][0]));
    assert TakenOver([a, b], 0);
    ProjectionAt(net, [a, b], -5, NameOf(a));
  }

  // Replay ------------------------------------------------------------------------------------

  /** Requests of the same name carry the same entry, and all are registrations. */
  ghost predicate Agreeing(net: Net, reqs: seq<Request>) {
    && (forall i :: 0 <= i < |reqs| ==> reqs[i].action == REGISTER)
    && forall i, j :: 0 <= i < |reqs| && 0 <= j < |reqs| && NameOf(reqs[i]) == NameOf(reqs[j]) ==>
         RequestToEntry(net, reqs[i]) == RequestToEntry(net, reqs[j])
  }

  lemma {:induction false} LastAboutFound(reqs: seq<Request>, n: string)
    requires forall i :: 0 <= i < |reqs| ==> reqs[i].action == REGISTER
    ensures match LastAbout(reqs, n)
            case None => forall r :: r in reqs ==> NameOf(r) != n
            case Some(r) => r in reqs && NameOf(r) == n
    decreases reqs
  {
    if reqs != [] {
      hide NameOf;
      LastAboutFound(reqs[..|reqs| - 1], n);
      assert reqs == reqs[..|reqs| - 1] + [reqs[|reqs| - 1]];
    }
  }

  /** A run of agreeing registrations leaves, under each name it mentions, the one entry that
      its requests give that name, and every other name alone. */
  lemma AgreeingRun(net: Net, t: Table, reqs: seq<Request>, n: string)
    requires Agreeing(net, reqs)
    ensures (forall r :: r in reqs ==> NameOf(r) != n) ==> Lookup(Run(net, t, reqs), n) == Lookup(t, n)
    ensures forall r :: r in reqs && NameOf(r) == n ==> Lookup(Run(net, t, reqs), n) == Some(RequestToEntry(net, r))
  {
    LastWriterWins(net, t, reqs, n);
    LastAboutFound(reqs, n);
    hide NameOf, RequestToEntry, Run, LastAbout;
  }

  /** `b` replays `a`: the same requests, in any order and with any repetitions. */
  ghost predicate Replays(b: seq<Request>, a: seq<Request>) {
    forall r :: r in b <==> r in a
  }

  /** Resynchronisation. If `live` are the registrations of the live shims, which agree name by
      name, then replaying them from an empty table in any order, with any repetitions, gives
      one table; and replaying them on top of it changes nothing. */
  lemma ResyncConverges(net: Net, live: seq<Request>, replay: seq<Request>)
    requires Agreeing(net, live)
    requires Replays(replay, live)
    ensures Run(net, map[], replay) == Run(net, map[], live)
    ensures Run(net, Run(net, map[], live), replay) == Run(net, map[], live)
  {
    assert Agreeing(net, replay) by {
      hide NameOf, RequestToEntry;
      assert forall i :: 0 <= i < |replay| ==> replay[i] in live;
    }
    hide NameOf, RequestToEntry, Run, Agreeing;
    var a, b, d := Run(net, map[], live), Run(net, map[], replay), Run(net, Run(net, map[], live), replay);
    forall n: string ensures Lookup(a, n) == Lookup(b, n) == Lookup(d, n) {
      AgreeingRun(net, map[], live, n);
      AgreeingRun(net, map[], replay, n);
      AgreeingRun(net, a, replay, n);
      if r :| r in live && NameOf(r) == n {
        assert r in replay;
      }
    }
    SameLookups(a, b);
    SameLookups(a, d);
  }

  /** The order of a replay plays no part if and only if the live shims agree name by name. */
  lemma OrderIsFreeIffAgreeing(net: Net, live: seq<Request>)
    requires forall i :: 0 <= i < |live| ==> live[i].action == REGISTER
    ensures (forall replay :: Replays(replay, live) ==> Run(net, map[], replay) == Run(net, map[], live)) <==> Agreeing(net, live)
  {
    hide NameOf, RequestToEntry, Run;
    if Agreeing(net, live) {
      forall replay | Replays(replay, live) ensures Run(net, map[], replay) == Run(net, map[], live) {
        ResyncConverges(net, live, replay);
      }
    } else {
      var i, j :| 0 <= i < |live| && 0 <= j < |live| && NameOf(live[i]) == NameOf(live[j]) &&
                  RequestToEntry(net, live[i]) != RequestToEntry(net, live[j]);
      LastRegistered(net, live, live[i]);
      LastRegistered(net, live, live[j]);
      assert Replays(live + [live[i]], live) && Replays(live + [live[j]], live);
      assert Run(net, map[], live + [live[i]]) != Run(net, map[], live + [live[j]]);
    }
  }

  lemma LastRegistered(net: Net, reqs: seq<Request>, r: Request)
    requires r.action == REGISTER
    ensures Lookup(Run(net, map[], reqs + [r]), NameOf(r)) == Some(RequestToEntry(net, r))
  {
    hide NameOf, RequestToEntry;
    assert (reqs + [r])[..|reqs|] == reqs;
  }

  /** Restart. Whatever the history of requests, replaying in any order exactly those
      registrations that were the last word on their name rebuilds the table from nothing, and
      replaying them on a server that did not restart changes nothing. */
  lemma ResyncRebuilds(net: Net, history: seq<Request>, replay: seq<Request>)
    requires forall r :: r in replay <==> r.action == REGISTER && LastAbout(history, NameOf(r)) == Some(r)
    ensures Run(net, map[], replay) == Run(net, map[], history)
    ensures Run(net, Run(net, map[], history), replay) == Run(net, map[], history)
  {
    hide NameOf, RequestToEntry, Run, LastAbout;
    assert Agreeing(net, replay) by {
      assert forall i :: 0 <= i < |replay| ==> replay[i] in replay;
    }
    var a, b, d := Run(net, map[], history), Run(net, map[], replay), Run(net, Run(net, map[], history), replay);
    forall n: string ensures Lookup(a, n) == Lookup(b, n) == Lookup(d, n) {
      LastWriterWins(net, map[], history, n);
      LastAboutIsAbout(history, n);
      AgreeingRun(net, map[], replay, n);
      AgreeingRun(net, a, replay, n);
    }
    SameLookups(a, b);
    SameLookups(a, d);
  }

  lemma {:induction false} LastAboutIsAbout(reqs: seq<Request>, n: string)
    ensures var l := LastAbout(reqs, n);
            l.Some? ==> NameOf(l.value) == n && (l.value.action == REGISTER || l.value.action == DEREGISTER)
    decreases reqs
  {
    if reqs != [] {
      hide NameOf;
      LastAboutIsAbout(reqs[..|reqs| - 1], n);
    }
  }

  lemma SameLookups(a: Table, b: Table)
    requires forall n :: Lookup(a, n) == Lookup(b, n)
    ensures a == b
  {
    forall n ensures n in a <==> n in b {
      assert Lookup(a, n) == Lookup(b, n);
    }
    forall n | n in a ensures a[n] == b[n] {
      assert Lookup(a, n) == Lookup(b, n);
    }
  }

  // The object --------------------------------------------------------------------------------

  datatype Reply = Accepted | UnknownAction

  class Registrar {
    const net: Net
    var entries: Table

    constructor (net: Net)
      ensures this.net == net && entries == map[]
    {
      this.net := net;
      entries := map[];
    }

    method Register(req: Request) returns (reply: Reply)
      modifies this
      ensures entries == Apply(net, old(entries), req)
      ensures reply == UnknownAction <==> req.action != 0 && req.action != 1
      ensures reply == UnknownAction ==> entries == old(entries)
      ensures forall name :: IsNameOf(name, req.serviceName, req.environmentName, req.frontendPort) ==>
                && (req.action == REGISTER ==>
                      name in entries &&
                      entries[name] == Entry(net.parseIP(req.frontendAddr), req.frontendPort, net.parseIP(req.backendAddr),
                                             req.backendPort, req.serviceName, req.environmentName, req.proxyMode))
                && (req.action == DEREGISTER ==> name !in entries)
    {
      forall name | IsNameOf(name, req.serviceName, req.environmentName, req.frontendPort) ensures name == NameOf(req) {
        NameByCases(req, name);
      }
      hide NameOf, IsNameOf;
      if req.action == REGISTER {
        var entry := RequestToEntry(net, req);
        entries := entries[SvcName(entry) := entry];
        return Accepted;
      }
      if req.action == DEREGISTER {
        var entry := RequestToEntry(net, req);
        entries := entries - {SvcName(entry)};
        return Accepted;
      }
      return UnknownAction;
    }

    method GetEntry(svcName: string) returns (entry: Option<Entry>)
      ensures entry == Lookup(entries, svcName)
    {
      entry := if svcName in entries then Some(entries[svcName]) else None;
    }

    /** The entries in the order in which the callback is called on them, up to the first call
        that returns an error (`stops`). */
    method EachEntry(stops: (string, Entry) -> bool) returns (visited: seq<string>, failed: bool)
      ensures forall i :: 0 <= i < |visited| ==> visited[i] in entries
      ensures forall i, j :: 0 <= i < j < |visited| ==> visited[i] != visited[j]
      ensures forall i :: 0 <= i < |visited| - 1 ==> !stops(visited[i], entries[visited[i]])
      ensures failed ==> visited != [] && stops(visited[|visited| - 1], entries[visited[|visited| - 1]])
      ensures !failed ==> IsRange(visited, entries) &&
                          forall n :: n in entries ==> !stops(n, entries[n])
    {
      var left := entries.Keys;
      visited := [];
      while left != {}
        invariant forall i :: 0 <= i < |visited| ==> visited[i] in entries && visited[i] !in left
        invariant forall i, j :: 0 <= i < j < |visited| ==> visited[i] != visited[j]
        invariant forall i :: 0 <= i < |visited| ==> !stops(visited[i], entries[visited[i]])
        invariant forall n :: n in entries <==> n in left || n in visited
        decreases left
      {
        var n :| n in left;
        visited := visited + [n];
        if stops(n, entries[n]) {
          return visited, true;
        }
        left := left - {n};
      }
      return visited, false;
    }
  }
}
