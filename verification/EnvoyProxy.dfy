/** The shim: it looks the container up, sends its request, and retries. */
module EnvoyProxy {
  import opened Wrappers
  import opened Addresses
  import opened Registry

  /** What discovery reports of a container. */
  datatype Settings = Settings(serviceName: string, environmentName: string, proxyMode: string)

  /** The fate of a call: not delivered; applied, but reported as failed; applied and answered. */
  datatype Delivery = NotDelivered | ReplyLost | Answered

  /** One attempt: the answer of discovery, None for an error, and the fate of the call. */
  datatype Attempt = Attempt(settings: Option<Settings>, delivery: Delivery)

  /** Go's conversion to int32 keeps the low 32 bits. */
  function ToInt32(n: int): (r: int32)
    ensures -0x8000_0000 <= n < 0x8000_0000 ==> r == n
    ensures (n - r) % 0x1_0000_0000 == 0
  {
    var low := n % 0x1_0000_0000;
    if low < 0x8000_0000 then low else low - 0x1_0000_0000
  }

  datatype Shim = Shim(frontendIP: IP, frontendPort: int, backendIP: IP, backendPort: int, retries: seq<int>)

  /** `RequestWithSettings`, with the action filled in. */
  function RequestFor(net: Net, p: Shim, action: int, s: Settings): Request {
    Request(action, net.ipString(p.frontendIP), ToInt32(p.frontendPort), net.ipString(p.backendIP),
            ToInt32(p.backendPort), s.serviceName, s.environmentName, s.proxyMode)
  }

  /** The attempt reaches the registrar. */
  predicate Applied(a: Attempt) {
    a.settings.Some? && !a.delivery.NotDelivered?
  }

  /** The attempt returns no error. */
  predicate Succeeds(action: int, a: Attempt) {
    a.settings.Some? && a.delivery.Answered? && (action == REGISTER || action == DEREGISTER)
  }

  /** The table after the first `n` attempts. */
  function AfterAttempts(net: Net, p: Shim, action: int, world: nat -> Attempt, t: Table, n: nat): Table {
    if n == 0 then t
    else
      var before := AfterAttempts(net, p, action, world, t, n - 1);
      if Applied(world(n - 1)) then Apply(net, before, RequestFor(net, p, action, world(n - 1).settings.value)) else before
  }

  /** What is filed for a shim whose container has these settings. */
  ghost predicate FiledFor(net: Net, t: Table, p: Shim, s: Settings) {
    forall name :: IsNameOf(name, s.serviceName, s.environmentName, ToInt32(p.frontendPort)) ==>
      name in t &&
      t[name] == Entry(net.parseIP(net.ipString(p.frontendIP)), ToInt32(p.frontendPort),
                       net.parseIP(net.ipString(p.backendIP)), ToInt32(p.backendPort),
                       s.serviceName, s.environmentName, s.proxyMode)
  }

  ghost predicate NothingFiledFor(t: Table, p: Shim, s: Settings) {
    forall name :: IsNameOf(name, s.serviceName, s.environmentName, ToInt32(p.frontendPort)) ==> name !in t
  }

  lemma RequestAction(net: Net, p: Shim, action: int)
    ensures forall s :: RequestFor(net, p, action, s).action == action
  {
  }

  lemma RequestIsFiled(net: Net, t: Table, p: Shim, action: int, s: Settings)
    ensures var t' := Apply(net, t, RequestFor(net, p, action, s));
            && (action == REGISTER ==> FiledFor(net, t', p, s))
            && (action == DEREGISTER ==> NothingFiledFor(t', p, s))
  {
    var req := RequestFor(net, p, action, s);
    var entry := Entry(net.parseIP(net.ipString(p.frontendIP)), ToInt32(p.frontendPort), net.parseIP(net.ipString(p.backendIP)),
                       ToInt32(p.backendPort), s.serviceName, s.environmentName, s.proxyMode);
    forall name | IsNameOf(name, s.serviceName, s.environmentName, ToInt32(p.frontendPort))
      ensures action == REGISTER ==> name in Apply(net, t, req) && Apply(net, t, req)[name] == entry
      ensures action == DEREGISTER ==> name !in Apply(net, t, req)
    {
      Filed(net, t, req, name);
    }
  }

  method DoAction(reg: Registrar, p: Shim, action: int, attempt: Attempt) returns (err: bool)
    modifies reg
    ensures reg.entries == if Applied(attempt) then Apply(reg.net, old(reg.entries), RequestFor(reg.net, p, action, attempt.settings.value))
                           else old(reg.entries)
    ensures err == !Succeeds(action, attempt)
    ensures Applied(attempt) && action == REGISTER ==> FiledFor(reg.net, reg.entries, p, attempt.settings.value)
    ensures Applied(attempt) && action == DEREGISTER ==> NothingFiledFor(reg.entries, p, attempt.settings.value)
  {
    hide FiledFor, NothingFiledFor, RequestFor, Apply, IsNameOf;
    if attempt.settings.None? {
      return true;
    }
    if attempt.delivery.NotDelivered? {
      return true;
    }
    RequestIsFiled(reg.net, reg.entries, p, action, attempt.settings.value);
    RequestAction(reg.net, p, action);
    var reply := reg.Register(RequestFor(reg.net, p, action, attempt.settings.value));
    err := attempt.delivery.ReplyLost? || reply == UnknownAction;
  }

  /** `withRetries`: attempts until one succeeds or the list of delays is used up. With an empty
      list nothing is attempted, and that is no error. */
  method WithRetries(reg: Registrar, p: Shim, action: int, world: nat -> Attempt) returns (err: bool, made: nat)
    modifies reg
    ensures made <= |p.retries| && (made == 0 <==> p.retries == [])
    ensures reg.entries == AfterAttempts(reg.net, p, action, world, old(reg.entries), made)
    ensures forall i :: 0 <= i < made - 1 ==> !Succeeds(action, world(i))
    ensures made == 0 ==> !err
    ensures made > 0 ==> err == !Succeeds(action, world(made - 1)) && (err ==> made == |p.retries|)
    ensures made > 0 && !err && action == REGISTER ==> FiledFor(reg.net, reg.entries, p, world(made - 1).settings.value)
    ensures made > 0 && !err && action == DEREGISTER ==> NothingFiledFor(reg.entries, p, world(made - 1).settings.value)
  {
    hide Apply, RequestFor, Succeeds, FiledFor, NothingFiledFor, IsNameOf;
    err, made := false, 0;
    while made < |p.retries|
      invariant made <= |p.retries|
      invariant reg.entries == AfterAttempts(reg.net, p, action, world, old(reg.entries), made)
      invariant forall i :: 0 <= i < made ==> !Succeeds(action, world(i))
      invariant err == (made > 0)
    {
      err := DoAction(reg, p, action, world(made));
      made := made + 1;
      if !err {
        SuccessIsApplied(action, world(made - 1));
        return;
      }
    }
  }

  lemma SuccessIsApplied(action: int, a: Attempt)
    ensures Succeeds(action, a) ==> Applied(a)
  {
  }

  /** How `Run` ends: in a panic, by returning, or not at all. */
  datatype Ending = Panic | Return | WaitForever

  /** `Run`: register; then a reload returns, or panics if it could not register, and any other
      run waits for the process to be stopped, registered or not. */
  method RunShim(reg: Registrar, p: Shim, reload: bool, world: nat -> Attempt) returns (ending: Ending, made: nat)
    modifies reg
    ensures made <= |p.retries| && (made == 0 <==> p.retries == [])
    ensures reg.entries == AfterAttempts(reg.net, p, REGISTER, world, old(reg.entries), made)
    ensures ending == WaitForever <==> !reload
    ensures ending == Panic <==> reload && made > 0 && !Succeeds(REGISTER, world(made - 1))
    ensures made > 0 && ending == Return ==> FiledFor(reg.net, reg.entries, p, world(made - 1).settings.value)
  {
    var err;
    err, made := WithRetries(reg, p, REGISTER, world);
    ending := if !reload then WaitForever else if err then Panic else Return;
  }

  /** `Close`: deregister; a failure ends the process. */
  method CloseShim(reg: Registrar, p: Shim, world: nat -> Attempt) returns (fatal: bool, made: nat)
    modifies reg
    ensures made <= |p.retries| && (made == 0 <==> p.retries == [])
    ensures reg.entries == AfterAttempts(reg.net, p, DEREGISTER, world, old(reg.entries), made)
    ensures fatal <==> made > 0 && !Succeeds(DEREGISTER, world(made - 1))
    ensures made > 0 && !fatal ==> NothingFiledFor(reg.entries, p, world(made - 1).settings.value)
  {
    fatal, made := WithRetries(reg, p, DEREGISTER, world);
  }

  /** The request of the last of the first `n` attempts that reached the registrar. */
  function LastApplied(net: Net, p: Shim, action: int, world: nat -> Attempt, n: nat): Option<Request> {
    if n == 0 then None
    else if Applied(world(n - 1)) then Some(RequestFor(net, p, action, world(n - 1).settings.value))
    else LastApplied(net, p, action, world, n - 1)
  }

  lemma {:induction false} LastAppliedFound(net: Net, p: Shim, action: int, world: nat -> Attempt, n: nat)
    ensures match LastApplied(net, p, action, world, n)
            case None => forall i: nat :: i < n ==> !Applied(world(i))
            case Some(r) => (r.action == action &&
              exists i: nat :: i < n && Applied(world(i)) && r == RequestFor(net, p, action, world(i).settings.value))
  {
    if n > 0 {
      LastAppliedFound(net, p, action, world, n - 1);
      RequestAction(net, p, action);
      hide RequestFor;
    }
  }

  /** Applying a request twice, or after one of the same name and kind, is applying it once. */
  lemma ApplyAbsorbs(net: Net, t: Table, a: Request, b: Request)
    requires NameOf(a) == NameOf(b) && a.action == b.action
    ensures Apply(net, Apply(net, t, a), b) == Apply(net, t, b)
  {
    hide NameOf;
  }

  /** The discovery answers of the attempts that went out give the service one name. */
  ghost predicate OneName(net: Net, p: Shim, action: int, world: nat -> Attempt, n: nat) {
    forall i: nat, j: nat :: i < n && j < n && Applied(world(i)) && Applied(world(j)) ==>
      NameOf(RequestFor(net, p, action, world(i).settings.value)) == NameOf(RequestFor(net, p, action, world(j).settings.value))
  }

  /** Convergence. If the service kept one name, any number of attempts, applied or lost, leaves
      the table as after zero or one application: that of the last request applied. */
  lemma {:induction false} RetriesConverge(net: Net, p: Shim, action: int, world: nat -> Attempt, t: Table, n: nat)
    requires OneName(net, p, action, world, n)
    ensures AfterAttempts(net, p, action, world, t, n)
            == match LastApplied(net, p, action, world, n)
               case None => t
               case Some(r) => Apply(net, t, r)
  {
    if n > 0 {
      RetriesConverge(net, p, action, world, t, n - 1);
      LastAppliedFound(net, p, action, world, n - 1);
      RequestAction(net, p, action);
      hide NameOf, RequestFor, Apply;
      if Applied(world(n - 1)) && LastApplied(net, p, action, world, n - 1).Some? {
        ApplyAbsorbs(net, t, LastApplied(net, p, action, world, n - 1).value,
                     RequestFor(net, p, action, world(n - 1).settings.value));
      }
    }
  }

  /** The name under which attempt `i` registers or deregisters. */
  function NameAt(net: Net, p: Shim, action: int, world: nat -> Attempt, i: nat): string
    requires world(i).settings.Some?
  {
    NameOf(RequestFor(net, p, action, world(i).settings.value))
  }

  /** A name once registered stays in the table, and one once deregistered stays out of it. */
  lemma {:induction false} AppliedStays(net: Net, p: Shim, action: int, world: nat -> Attempt, t: Table, n: nat, i: nat)
    requires i < n && Applied(world(i))
    ensures var after := AfterAttempts(net, p, action, world, t, n);
            && (action == REGISTER ==> NameAt(net, p, action, world, i) in after)
            && (action == DEREGISTER ==> NameAt(net, p, action, world, i) !in after)
  {
    RequestAction(net, p, action);
    hide NameOf, RequestFor;
    if i < n - 1 {
      AppliedStays(net, p, action, world, t, n - 1, i);
    }
  }

  /** The attempts leave the table as after zero or one application: that of the last request
      applied. */
  ghost predicate LikeOnce(net: Net, p: Shim, action: int, world: nat -> Attempt, n: nat, t: Table) {
    AfterAttempts(net, p, action, world, t, n)
    == match LastApplied(net, p, action, world, n)
       case None => t
       case Some(r) => Apply(net, t, r)
  }

  /** Convergence, exactly: on every table a registration, or a deregistration, has been applied
      zero times or once in effect, if and only if discovery kept the service's name from attempt
      to attempt. */
  lemma RetriesConvergeIff(net: Net, p: Shim, action: int, world: nat -> Attempt, n: nat)
    requires action == REGISTER || action == DEREGISTER
    ensures (forall t: Table :: LikeOnce(net, p, action, world, n, t)) <==> OneName(net, p, action, world, n)
  {
    hide LikeOnce, OneName;
    if OneName(net, p, action, world, n) {
      forall t: Table ensures LikeOnce(net, p, action, world, n, t) {
        ConvergesLikeOnce(net, p, action, world, n, t);
      }
    } else {
      NamesDiffer(net, p, action, world, n);
    }
  }

  lemma ConvergesLikeOnce(net: Net, p: Shim, action: int, world: nat -> Attempt, n: nat, t: Table)
    requires OneName(net, p, action, world, n)
    ensures LikeOnce(net, p, action, world, n, t)
  {
    RetriesConverge(net, p, action, world, t, n);
  }

  lemma NamesDiffer(net: Net, p: Shim, action: int, world: nat -> Attempt, n: nat)
    requires (action == REGISTER || action == DEREGISTER) && !OneName(net, p, action, world, n)
    ensures exists t: Table :: !LikeOnce(net, p, action, world, n, t)
  {
    LastAppliedFound(net, p, action, world, n);
    hide NameOf, RequestFor, AfterAttempts, LastApplied, LikeOnce;
    var i: nat, j: nat :| i < n && j < n && Applied(world(i)) && Applied(world(j)) &&
                          NameAt(net, p, action, world, i) != NameAt(net, p, action, world, j);
    var last := NameOf(LastApplied(net, p, action, world, n).value);
    DivergesAt(net, p, action, world, n, if NameAt(net, p, action, world, i) != last then i else j);
  }

  /** A table on which it shows that attempt `i` had another name than the last. */
  lemma DivergesAt(net: Net, p: Shim, action: int, world: nat -> Attempt, n: nat, i: nat)
    requires action == REGISTER || action == DEREGISTER
    requires i < n && Applied(world(i)) && LastApplied(net, p, action, world, n).Some?
    requires LastApplied(net, p, action, world, n).value.action == action
    requires NameAt(net, p, action, world, i) != NameOf(LastApplied(net, p, action, world, n).value)
    ensures exists t: Table :: !LikeOnce(net, p, action, world, n, t)
  {
    hide NameOf, RequestFor, AfterAttempts, LastApplied;
    var r := RequestFor(net, p, action, world(i).settings.value);
    var t: Table := if action == REGISTER then map[] else map[NameOf(r) := RequestToEntry(net, r)];
    AppliedStays(net, p, action, world, t, n, i);
    assert !LikeOnce(net, p, action, world, n, t);
  }

  // Among other shims ---------------------------------------------------------------------------

  /** The requests of the first `n` attempts that reach the registrar. */
  function AppliedRequests(net: Net, p: Shim, action: int, world: nat -> Attempt, n: nat): seq<Request> {
    if n == 0 then []
    else
      var before := AppliedRequests(net, p, action, world, n - 1);
      if Applied(world(n - 1)) then before + [RequestFor(net, p, action, world(n - 1).settings.value)] else before
  }

  lemma {:induction false} AttemptsAreRun(net: Net, p: Shim, action: int, world: nat -> Attempt, history: seq<Request>, n: nat)
    ensures Run(net, map[], history + AppliedRequests(net, p, action, world, n))
            == AfterAttempts(net, p, action, world, Run(net, map[], history), n)
  {
    hide NameOf, RequestFor, Apply;
    var reqs := AppliedRequests(net, p, action, world, n);
    if n == 0 {
      assert history + reqs == history;
    } else {
      AttemptsAreRun(net, p, action, world, history, n - 1);
      if Applied(world(n - 1)) {
        var before, r := history + AppliedRequests(net, p, action, world, n - 1), RequestFor(net, p, action, world(n - 1).settings.value);
        assert history + reqs == before + [r];
        RunStep(net, before, r);
      }
    }
  }

  lemma RunStep(net: Net, reqs: seq<Request>, r: Request)
    ensures Run(net, map[], reqs + [r]) == Apply(net, Run(net, map[], reqs), r)
  {
    hide Apply;
    assert (reqs + [r])[..|reqs|] == reqs;
  }

  /** Convergence under interference. Let any other shims' requests, on other ports, come in
      between in any order: if names do not clash, the entries of this shim's port are those that
      its port's earlier requests produce, changed by the retries as by zero or one application. */
  lemma RetriesConvergeAmongOthers(net: Net, p: Shim, action: int, world: nat -> Attempt, n: nat,
                                   history: seq<Request>, reqs: seq<Request>)
    requires NoClash(reqs) && OneName(net, p, action, world, n)
    requires RequestsOnPort(reqs, ToInt32(p.frontendPort)) == history + AppliedRequests(net, p, action, world, n)
    ensures var before := Run(net, map[], history);
            OnPort(Run(net, map[], reqs), ToInt32(p.frontendPort))
            == match LastApplied(net, p, action, world, n)
               case None => before
               case Some(r) => Apply(net, before, r)
  {
    PortProjection(net, reqs, ToInt32(p.frontendPort));
    AttemptsAreRun(net, p, action, world, history, n);
    RetriesConverge(net, p, action, world, Run(net, map[], history), n);
  }

  // The shim's life -----------------------------------------------------------------------------

  /** With one unchanging discovery answer, a run that ends without error has registered, or
      deregistered, exactly once in effect. */
  lemma StableSuccess(net: Net, p: Shim, action: int, world: nat -> Attempt, t: Table, n: nat, s: Settings)
    requires n > 0 && Succeeds(action, world(n - 1))
    requires forall i: nat :: i < n ==> world(i).settings.None? || world(i).settings == Some(s)
    ensures AfterAttempts(net, p, action, world, t, n) == Apply(net, t, RequestFor(net, p, action, s))
  {
    hide NameOf;
    RetriesConverge(net, p, action, world, t, n);
  }

  /** What `Close` undoes: a deregistration takes back the registration before it exactly when
      discovery still gives the service the name it had. */
  lemma CloseUndoesRun(net: Net, p: Shim, t: Table, atRun: Settings, atClose: Settings)
    ensures var reg, dereg := RequestFor(net, p, REGISTER, atRun), RequestFor(net, p, DEREGISTER, atClose);
            Apply(net, Apply(net, t, reg), dereg) == t - {NameOf(reg)} <==>
            BaseName(atRun.serviceName, atRun.environmentName) == BaseName(atClose.serviceName, atClose.environmentName)
  {
    var reg, dereg := RequestFor(net, p, REGISTER, atRun), RequestFor(net, p, DEREGISTER, atClose);
    SameName(BaseName(atRun.serviceName, atRun.environmentName), ToInt32(p.frontendPort),
             BaseName(atClose.serviceName, atClose.environmentName), ToInt32(p.frontendPort));
    assert NameOf(reg) == NameOf(dereg) <==>
           BaseName(atRun.serviceName, atRun.environmentName) == BaseName(atClose.serviceName, atClose.environmentName);
    hide NameOf, BaseName;
    assert NameOf(reg) in Apply(net, t, reg);
  }
}
