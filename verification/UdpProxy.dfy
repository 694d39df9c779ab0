/** The UDP proxy as interleaved atomic steps of one `Run`, one `replyLoop` per connection and
    one `Close`. A critical section is one step; every socket operation is a step of its own. */
module UdpProxy {
  import opened Wrappers
  import opened Addresses
  import opened ConnTrackKeys

  type Addr = a: UDPAddr | IsWire(a) witness UDPAddr([0, 0, 0, 0], 0, "")

  /** A piece of a datagram, with the address it came from or goes to. */
  datatype Chunk = Chunk(peer: Addr, bytes: seq<byte>)

  /** Where a `replyLoop` is. `mark` is a history variable: how many pieces had been written
      when the current datagram began. Its deferred function deletes the table entry (`Leaving`), then
      closes the socket (`Removed`). */
  datatype LoopPC = Reading | Replying(data: seq<byte>, sent: nat, mark: nat) | Leaving | Removed | Gone

  /** A dialled connection with its `replyLoop` and the history of what went through it. */
  datatype Conn = Conn(client: Addr, loop: LoopPC, open: bool, carried: seq<Chunk>, replies: seq<Chunk>)

  /** Where `Run` is: in its read, between read and table, or in its write loop. */
  datatype RunPC = Receiving | Got(from: Addr, data: seq<byte>)
                 | Forwarding(conn: nat, from: Addr, data: seq<byte>, sent: nat, mark: nat) | Stopped

  /** Where `Close` is: not called, listener closed, returned. */
  datatype ClosePC = NotCalled | Sweeping | Returned

  /** Two history variables: `late` holds the connections dialled after the listener was closed,
      and `swept` is how many there were when `Close` went through the table. */
  datatype State = State(
    table: map<ConnTrackKey, nat>, conns: seq<Conn>, run: RunPC, closing: ClosePC, late: seq<nat>, swept: nat)

  datatype Action =
    | Receive(from: Addr, data: seq<byte>) | ReceiveFails
    | Hit | Dial | DialFails
    | Forward(n: nat) | ForwardFails | ForwardDone
    | LoopReads(c: nat, data: seq<byte>) | LoopRefused(c: nat) | LoopReadFails(c: nat)
    | Reply(c: nat, n: nat) | ReplyFails(c: nat) | ReplyDone(c: nat)
    | Remove(c: nat) | CloseConn(c: nat)
    | CloseListener | Sweep

  const INITIAL := State(map[], [], Receiving, NotCalled, [], 0)

  predicate Listening(s: State) {
    s.closing.NotCalled?
  }

  function KeyOf(s: State, c: nat): ConnTrackKey
    requires c < |s.conns|
  {
    NewConnTrackKey(s.conns[c].client)
  }

  /** The action can happen in `s`. Reads and writes on a closed socket only fail. */
  predicate Enabled(s: State, a: Action) {
    match a
    case Receive(_, _) => s.run.Receiving? && Listening(s)
    case ReceiveFails => s.run.Receiving?
    case Hit => s.run.Got? && NewConnTrackKey(s.run.from) in s.table
    case Dial => s.run.Got? && NewConnTrackKey(s.run.from) !in s.table
    case DialFails => s.run.Got? && NewConnTrackKey(s.run.from) !in s.table
    case Forward(n) =>
      s.run.Forwarding? && s.run.conn < |s.conns| && s.conns[s.run.conn].open && 0 < n <= |s.run.data| - s.run.sent
    case ForwardFails => s.run.Forwarding? && s.run.sent != |s.run.data|
    case ForwardDone => s.run.Forwarding? && s.run.sent == |s.run.data|
    case LoopReads(c, _) => c < |s.conns| && s.conns[c].loop.Reading? && s.conns[c].open
    case LoopRefused(c) => c < |s.conns| && s.conns[c].loop.Reading? && s.conns[c].open
    case LoopReadFails(c) => c < |s.conns| && s.conns[c].loop.Reading?
    case Reply(c, n) =>
      c < |s.conns| && s.conns[c].loop.Replying? && Listening(s) &&
      0 < n <= |s.conns[c].loop.data| - s.conns[c].loop.sent
    case ReplyFails(c) =>
      c < |s.conns| && s.conns[c].loop.Replying? && s.conns[c].loop.sent != |s.conns[c].loop.data|
    case ReplyDone(c) =>
      c < |s.conns| && s.conns[c].loop.Replying? && s.conns[c].loop.sent == |s.conns[c].loop.data|
    case Remove(c) => c < |s.conns| && s.conns[c].loop.Leaving?
    case CloseConn(c) => c < |s.conns| && s.conns[c].loop.Removed?
    case CloseListener => s.closing.NotCalled?
    case Sweep => s.closing.Sweeping?
  }

  function SetLoop(s: State, c: nat, pc: LoopPC): State
    requires c < |s.conns|
  {
    s.(conns := s.conns[c := s.conns[c].(loop := pc)])
  }

  /** `Close` closes every connection in the table, in one critical section. */
  function Swept(s: State): seq<Conn> {
    seq(|s.conns|, c requires 0 <= c < |s.conns| =>
      if c in s.table.Values then s.conns[c].(open := false) else s.conns[c])
  }

  function Step(s: State, a: Action): State
    requires Enabled(s, a)
  {
    match a
    case Receive(from, data) => s.(run := Got(from, data))
    case ReceiveFails => s.(run := Stopped)
    case Hit =>
      var c := s.table[NewConnTrackKey(s.run.from)];
      s.(run := Forwarding(c, s.run.from, s.run.data, 0, if c < |s.conns| then |s.conns[c].carried| else 0))
    case Dial =>
      var c := |s.conns|;
      s.(conns := s.conns + [Conn(s.run.from, Reading, true, [], [])],
         table := s.table[NewConnTrackKey(s.run.from) := c],
         run := Forwarding(c, s.run.from, s.run.data, 0, 0),
         late := if Listening(s) then s.late else s.late + [c])
    case DialFails => s.(run := Receiving)
    case Forward(n) =>
      var r, conn := s.run, s.conns[s.run.conn];
      s.(run := r.(sent := r.sent + n),
         conns := s.conns[r.conn := conn.(carried := conn.carried + [Chunk(r.from, r.data[r.sent..r.sent + n])])])
    case ForwardFails => s.(run := Receiving)
    case ForwardDone => s.(run := Receiving)
    case LoopReads(c, data) => SetLoop(s, c, Replying(data, 0, |s.conns[c].replies|))
    case LoopRefused(c) => s
    case LoopReadFails(c) => SetLoop(s, c, Leaving)
    case Reply(c, n) =>
      var conn := s.conns[c];
      var l := conn.loop;
      s.(conns := s.conns[c := conn.(loop := l.(sent := l.sent + n),
                                     replies := conn.replies + [Chunk(conn.client, l.data[l.sent..l.sent + n])])])
    case ReplyFails(c) => SetLoop(s, c, Leaving)
    case ReplyDone(c) => SetLoop(s, c, Reading)
    case Remove(c) => SetLoop(s, c, Removed).(table := s.table - {KeyOf(s, c)})
    case CloseConn(c) => s.(conns := s.conns[c := s.conns[c].(loop := Gone, open := false)])
    case CloseListener => s.(closing := Sweeping)
    case Sweep => s.(closing := Returned, conns := Swept(s), swept := |s.conns|)
  }

  /** One step of a run; an action that is not enabled is not taken. */
  function After(s: State, a: Action): State {
    if Enabled(s, a) then Step(s, a) else s
  }

  /** The state after a run. */
  function Exec(s: State, acts: seq<Action>): State
    decreases acts
  {
    if acts == [] then s else Exec(After(s, acts[0]), acts[1..])
  }

  /** The `replyLoop` of this connection has not yet run its delete. */
  predicate Tracked(conn: Conn) {
    conn.loop.Reading? || conn.loop.Replying? || conn.loop.Leaving?
  }

  // The invariant -------------------------------------------------------------------------------

  /** Entries and undeleted loops match one to one. */
  ghost predicate TableMatchesLoops(s: State) {
    && (forall k :: k in s.table ==>
          s.table[k] < |s.conns| && Tracked(s.conns[s.table[k]]) && KeyOf(s, s.table[k]) == k)
    && (forall c :: 0 <= c < |s.conns| && Tracked(s.conns[c]) ==>
          KeyOf(s, c) in s.table && s.table[KeyOf(s, c)] == c)
  }

  ghost predicate OwnTraffic(conn: Conn) {
    && (forall i :: 0 <= i < |conn.carried| ==> NewConnTrackKey(conn.carried[i].peer) == NewConnTrackKey(conn.client))
    && (forall i :: 0 <= i < |conn.replies| ==> conn.replies[i].peer == conn.client)
  }

  /** Connections carry only their own client's traffic, also the one `Run` is writing to. */
  ghost predicate Isolated(s: State) {
    && (forall c :: 0 <= c < |s.conns| ==> OwnTraffic(s.conns[c]))
    && (s.run.Forwarding? ==>
          s.run.conn < |s.conns| && NewConnTrackKey(s.run.from) == KeyOf(s, s.run.conn))
  }

  /** The bytes of a list of pieces. */
  function Bytes(chunks: seq<Chunk>): seq<byte> {
    if chunks == [] then [] else Bytes(chunks[..|chunks| - 1]) + chunks[|chunks| - 1].bytes
  }

  /** The pieces of the current datagram, from `mark` on, are what has been sent of it. */
  ghost predicate InOrder(chunks: seq<Chunk>, mark: nat, peer: Addr, data: seq<byte>, sent: nat) {
    && mark <= |chunks| && sent <= |data| && Bytes(chunks[mark..]) == data[..sent]
    && forall i :: mark <= i < |chunks| ==> chunks[i].peer == peer && chunks[i].bytes != []
  }

  ghost predicate DatagramsInOrder(s: State) {
    && (s.run.Forwarding? ==>
          s.run.conn < |s.conns| && InOrder(s.conns[s.run.conn].carried, s.run.mark, s.run.from, s.run.data, s.run.sent))
    && (forall c :: 0 <= c < |s.conns| ==> RepliesInOrder(s.conns[c]))
  }

  ghost predicate RepliesInOrder(conn: Conn) {
    conn.loop.Replying? ==> InOrder(conn.replies, conn.loop.mark, conn.client, conn.loop.data, conn.loop.sent)
  }

  /** Sockets are closed by their loop, or by `Close`; after `Close`, only a late one is open. */
  ghost predicate SocketsAccounted(s: State) {
    && (forall c :: 0 <= c < |s.conns| && s.conns[c].loop.Gone? ==> !s.conns[c].open)
    && (forall c :: 0 <= c < |s.conns| && !s.conns[c].loop.Gone? && !s.closing.Returned? ==> s.conns[c].open)
    && (s.closing.Returned? ==> s.swept <= |s.conns|)
    && (forall c :: 0 <= c < |s.conns| && Tracked(s.conns[c]) && s.closing.Returned? ==> (s.conns[c].open <==> s.swept <= c))
  }

  /** At most one dial after the listener is closed: that of a datagram already read. */
  ghost predicate LateBounded(s: State) {
    && |s.late| <= 1
    && (Listening(s) ==> s.late == [])
    && (s.run.Got? ==> s.late == [])
    && (s.closing.Returned? ==> forall c :: s.swept <= c < |s.conns| ==> c in s.late)
  }

  ghost predicate Inv(s: State) {
    TableMatchesLoops(s) && Isolated(s) && DatagramsInOrder(s) && SocketsAccounted(s) && LateBounded(s)
  }

  lemma StepKeepsTable(s: State, a: Action)
    requires TableMatchesLoops(s) && Enabled(s, a)
    ensures TableMatchesLoops(Step(s, a))
  {
    hide TableMatchesLoops, Step;
    match a
    case Dial => DialKeepsTable(s);
    case Remove(c) => RemoveKeepsTable(s, c);
    case _ =>
      OthersKeepTracking(s, a);
      SameTrackingSameTable(s, Step(s, a));
  }

  ghost predicate SameTracking(s: State, s': State) {
    && s'.table == s.table && |s'.conns| == |s.conns|
    && forall c :: 0 <= c < |s.conns| ==>
         s'.conns[c].client == s.conns[c].client && Tracked(s'.conns[c]) == Tracked(s.conns[c])
  }

  /** Only dialling and the loop's delete change the table or what is tracked. */
  lemma OthersKeepTracking(s: State, a: Action)
    requires Enabled(s, a) && !a.Dial? && !a.Remove?
    ensures SameTracking(s, Step(s, a))
  {
    hide NewConnTrackKey;
  }

  lemma SameTrackingSameTable(s: State, s': State)
    requires TableMatchesLoops(s) && SameTracking(s, s')
    ensures TableMatchesLoops(s')
  {
    hide NewConnTrackKey, Tracked;
  }

  lemma DialKeepsTable(s: State)
    requires TableMatchesLoops(s) && Enabled(s, Dial)
    ensures TableMatchesLoops(Step(s, Dial))
  {
    hide NewConnTrackKey;
    var s', n := Step(s, Dial), |s.conns|;
    assert forall c :: 0 <= c < n ==> s'.conns[c] == s.conns[c];
    assert s'.conns[n].client == s.run.from && Tracked(s'.conns[n]);
  }

  lemma RemoveKeepsTable(s: State, c: nat)
    requires TableMatchesLoops(s) && Enabled(s, Remove(c))
    ensures TableMatchesLoops(Step(s, Remove(c)))
  {
    hide NewConnTrackKey;
    var s' := Step(s, Remove(c));
    assert forall d :: 0 <= d < |s.conns| ==> s'.conns[d].client == s.conns[d].client;
    assert forall d :: 0 <= d < |s.conns| ==> (Tracked(s'.conns[d]) <==> d != c && Tracked(s.conns[d]));
  }

  lemma StepKeepsIsolation(s: State, a: Action)
    requires TableMatchesLoops(s) && Isolated(s) && Enabled(s, a)
    ensures Isolated(Step(s, a))
  {
    hide NewConnTrackKey, OwnTraffic;
    var s' := Step(s, a);
    match a
    case Forward(n) =>
      AppendCarried(s.conns[s.run.conn], Chunk(s.run.from, s.run.data[s.run.sent..s.run.sent + n]));
    case Reply(c, n) =>
      var l := s.conns[c].loop;
      AppendReply(s.conns[c], l.(sent := l.sent + n), Chunk(s.conns[c].client, l.data[l.sent..l.sent + n]));
    case Dial =>
      NoTraffic(s.run.from);
    case _ =>
      OthersKeepTraffic(s, a);
      forall c | 0 <= c < |s.conns| ensures OwnTraffic(s'.conns[c]) {
        SameTraffic(s.conns[c], s'.conns[c]);
      }
  }

  /** Only dialling and the writes change what a connection carries. */
  lemma OthersKeepTraffic(s: State, a: Action)
    requires Enabled(s, a) && !a.Dial? && !a.Forward? && !a.Reply?
    ensures |Step(s, a).conns| == |s.conns|
    ensures forall c :: 0 <= c < |s.conns| ==>
              var x, y := s.conns[c], Step(s, a).conns[c];
              y.client == x.client && y.carried == x.carried && y.replies == x.replies
  {
    hide NewConnTrackKey;
  }

  lemma AppendCarried(conn: Conn, x: Chunk)
    requires OwnTraffic(conn) && NewConnTrackKey(x.peer) == NewConnTrackKey(conn.client)
    ensures OwnTraffic(conn.(carried := conn.carried + [x]))
  {
  }

  lemma AppendReply(conn: Conn, pc: LoopPC, x: Chunk)
    requires OwnTraffic(conn) && x.peer == conn.client
    ensures OwnTraffic(conn.(loop := pc, replies := conn.replies + [x]))
  {
  }

  lemma NoTraffic(client: Addr)
    ensures OwnTraffic(Conn(client, Reading, true, [], []))
  {
  }

  lemma SameTraffic(conn: Conn, conn': Conn)
    requires OwnTraffic(conn)
    ensures conn'.client == conn.client && conn'.carried == conn.carried && conn'.replies == conn.replies ==> OwnTraffic(conn')
  {
  }

  lemma AppendInOrder(chunks: seq<Chunk>, mark: nat, peer: Addr, data: seq<byte>, sent: nat, n: nat)
    requires InOrder(chunks, mark, peer, data, sent) && 0 < n <= |data| - sent
    ensures InOrder(chunks + [Chunk(peer, data[sent..sent + n])], mark, peer, data, sent + n)
  {
    var x := Chunk(peer, data[sent..sent + n]);
    var more := chunks + [x];
    assert more[mark..] == chunks[mark..] + [x];
    assert (chunks[mark..] + [x])[..|chunks[mark..]|] == chunks[mark..];
    assert data[..sent] + data[sent..sent + n] == data[..sent + n];
  }

  lemma StartInOrder(chunks: seq<Chunk>, peer: Addr, data: seq<byte>)
    ensures InOrder(chunks, |chunks|, peer, data, 0)
  {
    assert chunks[|chunks|..] == [];
  }

  lemma StepKeepsOrder(s: State, a: Action)
    requires TableMatchesLoops(s) && DatagramsInOrder(s) && Enabled(s, a)
    ensures DatagramsInOrder(Step(s, a))
  {
    hide NewConnTrackKey, InOrder;
    match a
    case Hit =>
      StartInOrder(s.conns[s.table[NewConnTrackKey(s.run.from)]].carried, s.run.from, s.run.data);
    case Dial =>
      StartInOrder([], s.run.from, s.run.data);
    case Forward(n) =>
      AppendInOrder(s.conns[s.run.conn].carried, s.run.mark, s.run.from, s.run.data, s.run.sent, n);
    case LoopReads(c, data) =>
      StartInOrder(s.conns[c].replies, s.conns[c].client, data);
    case Reply(c, n) =>
      var l := s.conns[c].loop;
      assert RepliesInOrder(s.conns[c]);
      AppendInOrder(s.conns[c].replies, l.mark, s.conns[c].client, l.data, l.sent, n);
    case _ =>
      OthersKeepTraffic(s, a);
      OthersKeepReplies(s, a);
  }

  lemma OthersKeepReplies(s: State, a: Action)
    requires Enabled(s, a) && !a.Dial? && !a.Forward? && !a.Reply? && !a.LoopReads?
    ensures |Step(s, a).conns| == |s.conns|
    ensures forall c :: 0 <= c < |s.conns| ==>
              Step(s, a).conns[c].loop.Replying? ==> Step(s, a).conns[c].loop == s.conns[c].loop
    ensures !a.Hit? && Step(s, a).run.Forwarding? ==> Step(s, a).run == s.run
  {
    hide NewConnTrackKey;
  }

  lemma StepKeepsSockets(s: State, a: Action)
    requires TableMatchesLoops(s) && SocketsAccounted(s) && Enabled(s, a)
    ensures SocketsAccounted(Step(s, a))
  {
    hide TableMatchesLoops, SocketsAccounted;
    match a
    case Sweep => SweepKeepsSockets(s);
    case Dial => DialKeepsSockets(s);
    case _ => OthersKeepSockets(s, a);
  }

  lemma SweepKeepsSockets(s: State)
    requires TableMatchesLoops(s) && SocketsAccounted(s) && Enabled(s, Sweep)
    ensures SocketsAccounted(Step(s, Sweep))
  {
    hide NewConnTrackKey;
    forall c | 0 <= c < |s.conns| && Tracked(s.conns[c]) ensures c in s.table.Values {
      assert s.table[KeyOf(s, c)] == c;
    }
  }

  lemma DialKeepsSockets(s: State)
    requires SocketsAccounted(s) && Enabled(s, Dial)
    ensures SocketsAccounted(Step(s, Dial))
  {
    hide NewConnTrackKey;
  }

  lemma OthersKeepSockets(s: State, a: Action)
    requires SocketsAccounted(s) && Enabled(s, a) && !a.Sweep? && !a.Dial?
    ensures SocketsAccounted(Step(s, a))
  {
    hide NewConnTrackKey;
  }

  lemma StepKeepsLateBound(s: State, a: Action)
    requires LateBounded(s) && Enabled(s, a)
    ensures LateBounded(Step(s, a))
  {
  }

  lemma StepKeepsInv(s: State, a: Action)
    requires Inv(s)
    ensures Inv(After(s, a))
  {
    if Enabled(s, a) {
      hide Step, Enabled, TableMatchesLoops, Isolated, DatagramsInOrder, SocketsAccounted, LateBounded;
      StepKeepsTable(s, a);
      StepKeepsIsolation(s, a);
      StepKeepsOrder(s, a);
      StepKeepsSockets(s, a);
      StepKeepsLateBound(s, a);
    }
  }

  lemma {:induction false} RunKeepsInv(s: State, acts: seq<Action>)
    requires Inv(s)
    ensures Inv(Exec(s, acts))
    decreases acts
  {
    if acts != [] {
      hide Inv, After;
      StepKeepsInv(s, acts[0]);
      RunKeepsInv(After(s, acts[0]), acts[1..]);
    }
  }

  /** Every state that any interleaving reaches. */
  function Reached(acts: seq<Action>): State {
    Exec(INITIAL, acts)
  }

  lemma Invariant(acts: seq<Action>)
    ensures Inv(Reached(acts))
  {
    RunKeepsInv(INITIAL, acts);
  }

  // What every run keeps --------------------------------------------------------------------------

  /** Client isolation, over every interleaving. What `Run` wrote to a connection, even after
      releasing the lock and after the connection left the table, came from senders with the
      key of that connection's client; what its loop read went to that client only. */
  lemma ClientIsolation(acts: seq<Action>, c: nat)
    requires c < |Reached(acts).conns|
    ensures var conn := Reached(acts).conns[c];
            && (forall i :: 0 <= i < |conn.carried| ==>
                  NewConnTrackKey(conn.carried[i].peer) == NewConnTrackKey(conn.client))
            && (forall i :: 0 <= i < |conn.replies| ==> conn.replies[i].peer == conn.client)
  {
    Invariant(acts);
    assert OwnTraffic(Reached(acts).conns[c]);
  }

  /** Some connection of this state carries a piece from each of the two senders. */
  ghost predicate Shared(s: State, a: Addr, b: Addr) {
    exists c, i, j :: 0 <= c < |s.conns| && 0 <= i < |s.conns[c].carried| && 0 <= j < |s.conns[c].carried| &&
                      s.conns[c].carried[i].peer == a && s.conns[c].carried[j].peer == b
  }

  /** Who can come to share a connection, in any interleaving: exactly the senders with one key. */
  lemma SharedIffSameKey(a: Addr, b: Addr)
    ensures (exists acts :: Shared(Reached(acts), a, b)) <==> NewConnTrackKey(a) == NewConnTrackKey(b)
  {
    hide NewConnTrackKey, Reached;
    forall acts | Shared(Reached(acts), a, b) ensures NewConnTrackKey(a) == NewConnTrackKey(b) {
      Invariant(acts);
      var s := Reached(acts);
      var c, i, j :| 0 <= c < |s.conns| && 0 <= i < |s.conns[c].carried| && 0 <= j < |s.conns[c].carried| &&
                     s.conns[c].carried[i].peer == a && s.conns[c].carried[j].peer == b;
      assert OwnTraffic(s.conns[c]);
    }
    if NewConnTrackKey(a) == NewConnTrackKey(b) {
      SharingRun(a, b);
    }
  }

  lemma SharingRun(a: Addr, b: Addr)
    requires NewConnTrackKey(a) == NewConnTrackKey(b)
    ensures Shared(Reached([Receive(a, [0]), Dial, Forward(1), ForwardDone, Receive(b, [0]), Hit, Forward(1)]), a, b)
  {
    hide NewConnTrackKey, Exec, After;
    var acts := [Receive(a, [0]), Dial, Forward(1), ForwardDone, Receive(b, [0]), Hit, Forward(1)];
    var x, y := Chunk(a, [0]), Chunk(b, [0]);
    var table := map[NewConnTrackKey(a) := 0];
    var s0 := State(map[], [], Got(a, [0]), NotCalled, [], 0);
    var s1 := State(table, [Conn(a, Reading, true, [], [])], Forwarding(0, a, [0], 0, 0), NotCalled, [], 0);
    var s2 := s1.(run := Forwarding(0, a, [0], 1, 0), conns := [Conn(a, Reading, true, [x], [])]);
    var s3 := s2.(run := Forwarding(0, b, [0], 0, 1));
    var s4 := s3.(run := Forwarding(0, b, [0], 1, 1), conns := [Conn(a, Reading, true, [x, y], [])]);
    FirstSender(a);
    SecondSender(a, b);
    ExecAt(INITIAL, acts, 0);
    ExecAt(s0, acts, 1);
    ExecAt(s1, acts, 2);
    ExecAt(s2, acts, 3);
    ExecAt(s2.(run := Receiving), acts, 4);
    ExecAt(s2.(run := Got(b, [0])), acts, 5);
    ExecAt(s3, acts, 6);
    ExecEnd(s4, acts);
    assert acts[0..] == acts;
    assert s4.conns[0].carried[0].peer == a && s4.conns[0].carried[1].peer == b;
  }

  lemma FirstSender(a: Addr)
    ensures var s0 := State(map[], [], Got(a, [0]), NotCalled, [], 0);
            var s1 := State(map[NewConnTrackKey(a) := 0], [Conn(a, Reading, true, [], [])], Forwarding(0, a, [0], 0, 0), NotCalled, [], 0);
            && After(INITIAL, Receive(a, [0])) == s0 && After(s0, Dial) == s1
            && After(s1, Forward(1)) == s1.(run := Forwarding(0, a, [0], 1, 0), conns := [Conn(a, Reading, true, [Chunk(a, [0])], [])])
  {
    hide NewConnTrackKey;
    var s0 := State(map[], [], Got(a, [0]), NotCalled, [], 0);
    var conn := Conn(a, Reading, true, [], []);
    assert s0.conns + [conn] == [conn];
    var x := Chunk(a, [0]);
    assert [0][0..1] == [0] && [] + [x] == [x];
    assert [conn][0 := conn.(carried := [x])] == [Conn(a, Reading, true, [x], [])];
  }

  lemma SecondSender(a: Addr, b: Addr)
    requires NewConnTrackKey(a) == NewConnTrackKey(b)
    ensures var x, y := Chunk(a, [0]), Chunk(b, [0]);
            var s2 := State(map[NewConnTrackKey(a) := 0], [Conn(a, Reading, true, [x], [])], Forwarding(0, a, [0], 1, 0), NotCalled, [], 0);
            var s3 := s2.(run := Forwarding(0, b, [0], 0, 1));
            && After(s2, ForwardDone) == s2.(run := Receiving)
            && After(s2.(run := Receiving), Receive(b, [0])) == s2.(run := Got(b, [0]))
            && After(s2.(run := Got(b, [0])), Hit) == s3
            && After(s3, Forward(1)) == s3.(run := Forwarding(0, b, [0], 1, 1), conns := [Conn(a, Reading, true, [x, y], [])])
  {
    hide NewConnTrackKey;
    var x, y := Chunk(a, [0]), Chunk(b, [0]);
    var conn := Conn(a, Reading, true, [x], []);
    assert [0][0..1] == [0];
    assert [x] + [y] == [x, y];
    assert [conn][0 := conn.(carried := [x] + [y])] == [Conn(a, Reading, true, [x, y], [])];
  }

  /** `chunks` is `data` from its first byte to its last: at least one piece if there is a byte
      to write, and none, not even an empty one, if there is not. */
  ghost predicate Whole(chunks: seq<Chunk>, data: seq<byte>) {
    Bytes(chunks) == data && (chunks == [] <==> data == []) && forall i :: 0 <= i < |chunks| ==> chunks[i].bytes != []
  }

  /** Whole datagrams: when a write loop ends without error, in any interleaving, the pieces it
      wrote, and no others since it began, are the datagram it was given. An empty datagram is
      not written at all. */
  lemma DatagramsWhole(acts: seq<Action>, c: nat)
    ensures var s := Reached(acts);
            && (Enabled(s, ForwardDone) ==>
                  s.run.conn < |s.conns| && s.run.mark <= |s.conns[s.run.conn].carried| &&
                  Whole(s.conns[s.run.conn].carried[s.run.mark..], s.run.data))
            && (Enabled(s, ReplyDone(c)) ==>
                  var conn := s.conns[c];
                  conn.loop.mark <= |conn.replies| && Whole(conn.replies[conn.loop.mark..], conn.loop.data))
  {
    Invariant(acts);
    hide Reached, TableMatchesLoops, Isolated, SocketsAccounted, LateBounded, InOrder, Whole;
    var s := Reached(acts);
    if Enabled(s, ReplyDone(c)) {
      var conn := s.conns[c];
      assert RepliesInOrder(conn);
      SentIsWhole(conn.replies, conn.loop.mark, conn.client, conn.loop.data);
    }
    if Enabled(s, ForwardDone) {
      SentIsWhole(s.conns[s.run.conn].carried, s.run.mark, s.run.from, s.run.data);
    }
  }

  lemma SentIsWhole(chunks: seq<Chunk>, mark: nat, peer: Addr, data: seq<byte>)
    requires InOrder(chunks, mark, peer, data, |data|)
    ensures mark <= |chunks| && Whole(chunks[mark..], data)
  {
    assert data[..|data|] == data;
    var pieces := chunks[mark..];
    if pieces != [] {
      assert Bytes(pieces) == Bytes(pieces[..|pieces| - 1]) + pieces[|pieces| - 1].bytes;
    }
  }

  /** The unchecked delete: whenever a loop is about to delete by key, the entry under that key
      is its own connection. So the step removes that connection's entry and no other. */
  lemma DeleteRemovesOwn(acts: seq<Action>, c: nat)
    requires Enabled(Reached(acts), Remove(c))
    ensures var s := Reached(acts); var s' := Step(s, Remove(c));
            && KeyOf(s, c) in s.table && s.table[KeyOf(s, c)] == c
            && (forall k :: k in s.table && s.table[k] != c ==> k in s'.table && s'.table[k] == s.table[k])
            && (forall k :: k in s'.table ==> s'.table[k] != c)
  {
    Invariant(acts);
    hide NewConnTrackKey, Reached;
  }

  /** Table and loops, in every reachable state: one entry per undeleted loop and the reverse. */
  lemma TableLoopBijection(acts: seq<Action>, c: nat)
    requires c < |Reached(acts).conns|
    ensures var s := Reached(acts);
            && (Tracked(s.conns[c]) <==> KeyOf(s, c) in s.table && s.table[KeyOf(s, c)] == c)
            && (forall k :: k in s.table && s.table[k] == c ==> k == KeyOf(s, c))
  {
    Invariant(acts);
    hide NewConnTrackKey, Reached;
  }

  /** No socket is lost: each dialled connection is in the table, between delete and close, or
      closed; and when every loop has finished, the table is empty and all are closed. */
  lemma SocketConservation(acts: seq<Action>)
    ensures var s := Reached(acts);
            && (forall c :: 0 <= c < |s.conns| ==>
                  (KeyOf(s, c) in s.table && s.table[KeyOf(s, c)] == c)
                  || s.conns[c].loop.Removed?
                  || (s.conns[c].loop.Gone? && !s.conns[c].open))
            && ((forall c :: 0 <= c < |s.conns| ==> s.conns[c].loop.Gone?) ==>
                  s.table == map[] && forall c :: 0 <= c < |s.conns| ==> !s.conns[c].open)
  {
    Invariant(acts);
    hide NewConnTrackKey, Reached;
    var s := Reached(acts);
    if forall c :: 0 <= c < |s.conns| ==> s.conns[c].loop.Gone? {
      assert forall k :: k !in s.table;
    }
  }

  /** Neither closed nor removed from the table by its own loop. */
  predicate StillOpen(s: State, c: nat)
    requires c < |s.conns|
  {
    Tracked(s.conns[c]) && s.conns[c].open
  }

  /** Shutdown. Once `Close` has returned, the tracked connections that are open are exactly those
      dialled after it went through the table; and there is at most one, the only one dialled
      after the listener was closed. */
  lemma ShutdownBound(acts: seq<Action>)
    requires Reached(acts).closing.Returned?
    ensures var s := Reached(acts);
            && (forall c :: 0 <= c < |s.conns| ==> (StillOpen(s, c) <==> Tracked(s.conns[c]) && s.swept <= c))
            && (forall c :: 0 <= c < |s.conns| && StillOpen(s, c) ==> s.late == [c])
            && (forall c, d :: 0 <= c < |s.conns| && 0 <= d < |s.conns| && StillOpen(s, c) && StillOpen(s, d) ==> c == d)
  {
    Invariant(acts);
    hide Reached, TableMatchesLoops, Isolated, DatagramsInOrder;
    var s := Reached(acts);
    forall c | 0 <= c < |s.conns| && StillOpen(s, c) ensures s.late == [c] {
      assert c in s.late;
    }
  }

  /** When `Close` has returned and `Run` is not between its read and the table, every tracked
      connection is closed. */
  ghost predicate Quiet(s: State) {
    s.closing.Returned? && !s.run.Got? && forall c :: 0 <= c < |s.conns| ==> !StillOpen(s, c)
  }

  lemma SweepQuiets(s: State)
    requires TableMatchesLoops(s) && s.closing.Sweeping? && !s.run.Got?
    ensures Quiet(Step(s, Sweep))
  {
    hide NewConnTrackKey;
    forall c | 0 <= c < |s.conns| ensures !StillOpen(Step(s, Sweep), c) {
      if Tracked(s.conns[c]) {
        assert s.table[KeyOf(s, c)] == c;
      }
    }
  }

  lemma StepKeepsQuiet(s: State, a: Action)
    requires Quiet(s)
    ensures Quiet(After(s, a))
  {
    if Enabled(s, a) {
      NothingReopens(s, a);
      hide Step, StillOpen, NewConnTrackKey;
    }
  }

  /** No step reopens a closed connection, or tracks one anew, except by dialling it. */
  lemma NothingReopens(s: State, a: Action)
    requires Enabled(s, a) && s.closing.Returned? && !s.run.Got?
    ensures var s' := Step(s, a);
            && s'.closing.Returned? && !s'.run.Got? && |s'.conns| == |s.conns|
            && forall c :: 0 <= c < |s.conns| && StillOpen(s', c) ==> StillOpen(s, c)
  {
    hide NewConnTrackKey;
  }

  lemma {:induction false} RunKeepsQuiet(s: State, acts: seq<Action>)
    requires Quiet(s)
    ensures Quiet(Exec(s, acts))
    decreases acts
  {
    if acts != [] {
      hide Quiet, After;
      StepKeepsQuiet(s, acts[0]);
      RunKeepsQuiet(After(s, acts[0]), acts[1..]);
    }
  }

  /** Each of these actions brings the loop of `c` nearer to its delete, or is not enabled. */
  function LoopEnds(c: nat): seq<Action> {
    [ReplyDone(c), ReplyFails(c), LoopReadFails(c), Remove(c)]
  }

  /** `s'` is `s` but for the loop of `c`. */
  ghost predicate SameButLoop(s: State, s': State, c: nat)
    requires c < |s.conns|
  {
    && s'.table == s.table && s'.run == s.run && s'.closing == s.closing
    && |s'.conns| == |s.conns| && s'.conns[c].client == s.conns[c].client
  }

  /** Whatever it is doing, a loop that has not run its delete can come to the point of doing so. */
  lemma LoopCanLeave(s: State, c: nat)
    requires c < |s.conns| && Tracked(s.conns[c])
    ensures var s' := After(After(After(s, ReplyDone(c)), ReplyFails(c)), LoopReadFails(c));
            SameButLoop(s, s', c) && s'.conns[c].loop.Leaving?
  {
    hide NewConnTrackKey;
  }

  /** The loop of a tracked connection can always end, while the rest stands still. */
  lemma LoopCanEnd(s: State, c: nat)
    requires c < |s.conns| && Tracked(s.conns[c])
    ensures var s' := Exec(s, LoopEnds(c));
            s'.run == s.run && s'.closing == s.closing && KeyOf(s, c) !in s'.table
  {
    hide NewConnTrackKey, Exec, After;
    var acts := LoopEnds(c);
    var s1 := After(s, ReplyDone(c));
    var s2 := After(s1, ReplyFails(c));
    var s3 := After(s2, LoopReadFails(c));
    ExecAt(s, acts, 0);
    ExecAt(s1, acts, 1);
    ExecAt(s2, acts, 2);
    ExecAt(s3, acts, 3);
    ExecEnd(After(s3, Remove(c)), acts);
    assert acts[0..] == acts;
    LoopCanLeave(s, c);
    RemoveLeaves(s3, c);
  }

  lemma RemoveLeaves(s: State, c: nat)
    requires c < |s.conns| && s.conns[c].loop.Leaving?
    ensures var s' := After(s, Remove(c)); s'.run == s.run && s'.closing == s.closing && s'.table == s.table - {KeyOf(s, c)}
  {
    hide NewConnTrackKey;
  }

  /** A datagram already read gets a connection of its own that nobody closes. */
  lemma LateDialStaysOpen(s: State)
    requires s.closing.Returned? && s.run.Got? && NewConnTrackKey(s.run.from) !in s.table
    ensures var s' := Exec(s, [Dial]); |s.conns| < |s'.conns| && StillOpen(s', |s.conns|)
  {
    assert Exec(s, [Dial]) == Exec(After(s, Dial), []);
  }

  lemma {:induction false} ExecConcat(s: State, a: seq<Action>, b: seq<Action>)
    ensures Exec(s, a + b) == Exec(Exec(s, a), b)
    decreases a
  {
    if a == [] {
      assert a + b == b;
    } else {
      hide After;
      ExecConcat(After(s, a[0]), a[1..], b);
      assert (a + b)[1..] == a[1..] + b;
    }
  }

  /** Exactly when `Close` can leave a connection behind: if and only if, at the moment it goes
      through the table, `Run` holds a datagram that it has read and not yet looked up. */
  lemma LeakIffDatagramHeld(acts: seq<Action>)
    requires Reached(acts).closing.Sweeping?
    ensures (exists more: seq<Action>, c: nat ::
               c < |Exec(Step(Reached(acts), Sweep), more).conns| && StillOpen(Exec(Step(Reached(acts), Sweep), more), c))
            <==> Reached(acts).run.Got?
  {
    Invariant(acts);
    hide NewConnTrackKey, Reached, Exec, Isolated, DatagramsInOrder, SocketsAccounted, LateBounded, TableMatchesLoops, StillOpen;
    var s := Reached(acts);
    var swept := Step(s, Sweep);
    StepKeepsTable(s, Sweep);
    if s.run.Got? {
      LeakFrom(swept);
    } else {
      SweepQuiets(s);
      forall more: seq<Action>, c: nat | c < |Exec(swept, more).conns| ensures !StillOpen(Exec(swept, more), c) {
        RunKeepsQuiet(swept, more);
      }
    }
  }

  lemma LeakFrom(s: State)
    requires TableMatchesLoops(s) && s.closing.Returned? && s.run.Got?
    ensures exists more: seq<Action>, c: nat :: c < |Exec(s, more).conns| && StillOpen(Exec(s, more), c)
  {
    hide NewConnTrackKey, Exec, StillOpen;
    var key := NewConnTrackKey(s.run.from);
    if key in s.table {
      var c := s.table[key];
      LoopCanEnd(s, c);
      var s' := Exec(s, LoopEnds(c));
      LateDialStaysOpen(s');
      ExecConcat(s, LoopEnds(c), [Dial]);
      assert StillOpen(Exec(s, LoopEnds(c) + [Dial]), |s'.conns|);
    } else {
      LateDialStaysOpen(s);
      assert StillOpen(Exec(s, [Dial]), |s.conns|);
    }
  }

  /** The bound is reached: `Close` and `Run` have returned, and one connection is open. */
  lemma ShutdownLeak(from: Addr, data: seq<byte>)
    ensures var s := Reached([Receive(from, data), CloseListener, Sweep, Dial, ForwardFails, ForwardDone, ReceiveFails]);
            && s.closing.Returned? && s.run.Stopped?
            && |s.conns| == 1 && StillOpen(s, 0)
  {
    hide NewConnTrackKey, Exec, After;
    var acts := [Receive(from, data), CloseListener, Sweep, Dial, ForwardFails, ForwardDone, ReceiveFails];
    var got := State(map[], [], Got(from, data), NotCalled, [], 0);
    var dialled := State(map[NewConnTrackKey(from) := 0], [Conn(from, Reading, true, [], [])],
                         Forwarding(0, from, data, 0, 0), Returned, [0], 0);
    LeakStarts(from, data);
    LeakEnds(dialled);
    ExecAt(INITIAL, acts, 0);
    ExecAt(got, acts, 1);
    ExecAt(got.(closing := Sweeping), acts, 2);
    ExecAt(got.(closing := Returned), acts, 3);
    ExecAt(dialled, acts, 4);
    ExecAt(After(dialled, ForwardFails), acts, 5);
    ExecAt(dialled.(run := Receiving), acts, 6);
    ExecEnd(dialled.(run := Stopped), acts);
    assert acts[0..] == acts;
  }

  lemma LeakStarts(from: Addr, data: seq<byte>)
    ensures var got := State(map[], [], Got(from, data), NotCalled, [], 0);
            && After(INITIAL, Receive(from, data)) == got
            && After(got, CloseListener) == got.(closing := Sweeping)
            && After(got.(closing := Sweeping), Sweep) == got.(closing := Returned)
            && After(got.(closing := Returned), Dial)
               == State(map[NewConnTrackKey(from) := 0], [Conn(from, Reading, true, [], [])],
                        Forwarding(0, from, data, 0, 0), Returned, [0], 0)
  {
    var got := State(map[], [], Got(from, data), NotCalled, [], 0);
    assert Swept(got.(closing := Sweeping)) == [];
    DialFirst(got.(closing := Returned));
    hide NewConnTrackKey;
  }

  lemma LeakEnds(s: State)
    requires s.run.Forwarding? && s.run.sent == 0
    ensures After(After(s, ForwardFails), ForwardDone) == s.(run := Receiving)
    ensures After(s.(run := Receiving), ReceiveFails) == s.(run := Stopped)
  {
  }

  lemma ExecAt(s: State, acts: seq<Action>, i: nat)
    requires i < |acts|
    ensures Exec(s, acts[i..]) == Exec(After(s, acts[i]), acts[i + 1..])
  {
    assert acts[i..][1..] == acts[i + 1..];
  }

  lemma ExecEnd(s: State, acts: seq<Action>)
    ensures Exec(s, acts[|acts|..]) == s
  {
  }

  /** The first connection of all, dialled late. */
  lemma DialFirst(s: State)
    requires s.run.Got? && s.conns == [] && s.table == map[] && s.late == [] && s.swept == 0 && s.closing.Returned?
    ensures Enabled(s, Dial) && Step(s, Dial) ==
              State(map[NewConnTrackKey(s.run.from) := 0], [Conn(s.run.from, Reading, true, [], [])],
                    Forwarding(0, s.run.from, s.run.data, 0, 0), Returned, [0], 0)
  {
    hide NewConnTrackKey;
    var conn := Conn(s.run.from, Reading, true, [], []);
    assert s.conns + [conn] == [conn] && s.late + [0] == [0];
  }

  // Going on ----------------------------------------------------------------------------------------

  /** Where each step leaves `Run`: it stops by a failed read only, and goes back to its read from
      a failed dial, a failed write and a whole one. */
  lemma RunFlow(s: State, a: Action)
    requires Enabled(s, a)
    ensures var s' := Step(s, a);
            && (s'.run.Stopped? <==> s.run.Stopped? || a == ReceiveFails)
            && (s'.run.Receiving? <==>
                  a == DialFails || a == ForwardFails || a == ForwardDone || (s.run.Receiving? && !a.Receive? && a != ReceiveFails))
  {
    hide NewConnTrackKey, Swept;
  }

  /** Where each step leaves a `replyLoop`: it goes to its end by a failed read or a failed write
      only, and back to its read from a datagram written whole; then it deletes, and then closes. */
  lemma LoopFlow(s: State, a: Action, c: nat)
    requires Enabled(s, a) && c < |s.conns|
    ensures |Step(s, a).conns| >= |s.conns|
    ensures var loop, loop' := s.conns[c].loop, Step(s, a).conns[c].loop;
            && (loop'.Leaving? <==> a == LoopReadFails(c) || a == ReplyFails(c) || (loop.Leaving? && a != Remove(c)))
            && (loop'.Reading? <==> a == ReplyDone(c) || (loop.Reading? && !(a.LoopReads? && a.c == c) && a != LoopReadFails(c)))
            && (loop'.Removed? <==> a == Remove(c) || (loop.Removed? && a != CloseConn(c)))
            && (loop'.Gone? <==> a == CloseConn(c) || loop.Gone?)
  {
    hide NewConnTrackKey;
  }

  /** What can go wrong at any moment: every read, dial and write may fail. */
  lemma AnythingMayFail(s: State, c: nat)
    ensures s.run.Receiving? ==> Enabled(s, ReceiveFails)
    ensures s.run.Got? && NewConnTrackKey(s.run.from) !in s.table ==> Enabled(s, DialFails) && Enabled(s, Dial)
    ensures s.run.Forwarding? && s.run.sent != |s.run.data| ==> Enabled(s, ForwardFails)
    ensures c < |s.conns| && s.conns[c].loop.Reading? ==> Enabled(s, LoopReadFails(c))
    ensures c < |s.conns| && s.conns[c].loop.Replying? && s.conns[c].loop.sent != |s.conns[c].loop.data| ==> Enabled(s, ReplyFails(c))
  {
  }

  /** On a closed socket every read and write fails. */
  lemma ClosedSocketsFail(s: State, from: Addr, data: seq<byte>, c: nat, n: nat)
    ensures !Listening(s) ==> !Enabled(s, Receive(from, data)) && !Enabled(s, Reply(c, n))
    ensures c < |s.conns| && !s.conns[c].open ==>
              !Enabled(s, LoopReads(c, data)) && (s.run.Forwarding? && s.run.conn == c ==> !Enabled(s, Forward(n)))
  {
  }

  /** A loop that reads, on an open connection, with the listener open. */
  ghost predicate Answering(s: State, c: nat) {
    Listening(s) && c < |s.conns| && s.conns[c].loop.Reading? && s.conns[c].open
  }

  /** The steps of a loop that reads these datagrams one after the other and writes each whole. */
  function AnswerRun(c: nat, datagrams: seq<seq<byte>>): seq<Action> {
    if datagrams == [] then []
    else [LoopReads(c, datagrams[0]), Reply(c, |datagrams[0]|), ReplyDone(c)] + AnswerRun(c, datagrams[1..])
  }

  /** All the datagrams, one after the other. */
  function Together(datagrams: seq<seq<byte>>): seq<byte> {
    if datagrams == [] then [] else datagrams[0] + Together(datagrams[1..])
  }

  lemma {:induction false} BytesConcat(a: seq<Chunk>, b: seq<Chunk>)
    ensures Bytes(a + b) == Bytes(a) + Bytes(b)
    decreases b
  {
    if b == [] {
      assert a + b == a;
    } else {
      var n := |b| - 1;
      BytesConcat(a, b[..n]);
      assert (a + b)[..|a + b| - 1] == a + b[..n];
    }
  }

  /** One datagram, from the read to the next read. */
  lemma AnswersOne(s: State, c: nat, data: seq<byte>)
    requires Answering(s, c)
    ensures var s' := After(After(After(s, LoopReads(c, data)), Reply(c, |data|)), ReplyDone(c));
            && Answering(s', c) && s'.conns[c].client == s.conns[c].client
            && s'.conns[c].replies == s.conns[c].replies + if data == [] then [] else [Chunk(s.conns[c].client, data)]
  {
    hide NewConnTrackKey;
    var s1 := After(s, LoopReads(c, data));
    var l := s1.conns[c].loop;
    assert l == Replying(data, 0, |s.conns[c].replies|);
    assert data[0..|data|] == data;
    var s2 := After(s1, Reply(c, |data|));
    assert s2.conns[c].loop.Replying? && s2.conns[c].loop.sent == |data|;
    assert s.conns[c].replies + [] == s.conns[c].replies;
  }

  /** Every reply is delivered: from any state in which the loop of a connection reads, with the
      connection and the listener open, whatever datagrams then arrive on it, however many, they
      can all be read and written to the client, whole and in order. */
  lemma {:induction false} RepliesDelivered(s: State, c: nat, datagrams: seq<seq<byte>>) returns (sent: seq<Chunk>)
    requires Answering(s, c)
    ensures var s' := Exec(s, AnswerRun(c, datagrams));
            && Answering(s', c) && s'.conns[c].client == s.conns[c].client
            && s'.conns[c].replies == s.conns[c].replies + sent && Bytes(sent) == Together(datagrams)
    decreases datagrams
  {
    StillThere(s, c);
    if datagrams == [] {
      sent := [];
      assert s.conns[c].replies + [] == s.conns[c].replies;
    } else {
      hide After, Answering, Exec;
      var data := datagrams[0];
      var s3 := OneAnswer(s, c, datagrams);
      StillThere(s3, c);
      var more := RepliesDelivered(s3, c, datagrams[1..]);
      StillThere(Exec(s, AnswerRun(c, datagrams)), c);
      var piece := if data == [] then [] else [Chunk(s.conns[c].client, data)];
      sent := piece + more;
      assert s.conns[c].replies + piece + more == s.conns[c].replies + sent;
      BytesConcat(piece, more);
      PieceBytes(piece, data);
    }
  }

  lemma OneAnswer(s: State, c: nat, datagrams: seq<seq<byte>>) returns (s': State)
    requires Answering(s, c) && datagrams != []
    ensures Exec(s, AnswerRun(c, datagrams)) == Exec(s', AnswerRun(c, datagrams[1..]))
    ensures Answering(s', c) && s'.conns[c].client == s.conns[c].client
    ensures s'.conns[c].replies == s.conns[c].replies + if datagrams[0] == [] then [] else [Chunk(s.conns[c].client, datagrams[0])]
  {
    hide After, Exec;
    var data := datagrams[0];
    var s1 := After(s, LoopReads(c, data));
    var s2 := After(s1, Reply(c, |data|));
    s' := After(s2, ReplyDone(c));
    var acts := AnswerRun(c, datagrams);
    ExecAt(s, acts, 0);
    ExecAt(s1, acts, 1);
    ExecAt(s2, acts, 2);
    assert acts[0..] == acts && acts[3..] == AnswerRun(c, datagrams[1..]);
    AnswersOne(s, c, data);
  }

  lemma StillThere(s: State, c: nat)
    ensures Answering(s, c) ==> c < |s.conns|
  {
  }

  lemma PieceBytes(piece: seq<Chunk>, data: seq<byte>)
    requires (data == [] && piece == []) || (|piece| == 1 && piece[0].bytes == data)
    ensures Bytes(piece) == data
  {
    if piece != [] {
      assert piece[..0] == [];
    }
  }

  /** The steps in which `Run` gives up on what it is doing, if anything, and then takes and
      forwards one datagram. */
  function ForwardRun(from: Addr, data: seq<byte>): seq<Action> {
    [DialFails, Hit, ForwardFails, ForwardDone] + [Receive(from, data), Hit, Dial, Forward(|data|), ForwardDone]
  }

  /** `Run` gives up. */
  lemma GivesUp(s: State)
    requires Inv(s) && !s.run.Stopped?
    ensures var s' := After(After(After(After(s, DialFails), Hit), ForwardFails), ForwardDone);
            s'.run.Receiving? && s'.closing == s.closing && s'.table == s.table && s'.conns == s.conns
  {
    hide NewConnTrackKey, TableMatchesLoops, Isolated, SocketsAccounted, LateBounded, RepliesInOrder;
  }

  /** `Run` takes a datagram and forwards it. */
  lemma TakesOne(s: State, from: Addr, data: seq<byte>)
    requires Inv(s) && Listening(s) && s.run.Receiving?
    ensures var s' := After(After(After(After(After(s, Receive(from, data)), Hit), Dial), Forward(|data|)), ForwardDone);
            var key := NewConnTrackKey(from);
            && s'.run.Receiving? && key in s'.table && s'.table[key] < |s'.conns|
            && (key in s.table ==> s'.table[key] == s.table[key] && s.table[key] < |s.conns|)
            && (key !in s.table ==> s'.table[key] == |s.conns|)
            && var before := if key in s.table then s.conns[s.table[key]].carried else [];
               s'.conns[s'.table[key]].carried == before + if data == [] then [] else [Chunk(from, data)]
  {
    var key := NewConnTrackKey(from);
    var s1 := After(s, Receive(from, data));
    assert s1 == s.(run := Got(from, data));
    var s3 := After(After(s1, Hit), Dial);
    hide NewConnTrackKey, Isolated, DatagramsInOrder, LateBounded;
    Looked(s1, from, data);
    var c := s3.table[key];
    assert data[0..|data|] == data;
    var carried := s3.conns[c].carried;
    assert carried + [] == carried;
    var s4 := After(s3, Forward(|data|));
    assert s4.run.Forwarding? && s4.run.sent == |data| && s4.table == s3.table;
    assert s4.conns[c].carried == carried + if data == [] then [] else [Chunk(from, data)];
  }

  /** After the table, with a connection that is open. */
  lemma Looked(s: State, from: Addr, data: seq<byte>)
    requires TableMatchesLoops(s) && SocketsAccounted(s) && Listening(s) && s.run == Got(from, data)
    ensures var s' := After(After(s, Hit), Dial); var key := NewConnTrackKey(from);
            && key in s'.table && s'.table[key] < |s'.conns| && s'.conns[s'.table[key]].open
            && s'.run.Forwarding? && s'.run.conn == s'.table[key] && s'.run.from == from && s'.run.data == data && s'.run.sent == 0
            && (key in s.table ==> s.table[key] < |s.conns| && s'.table == s.table && s'.conns == s.conns)
            && (key !in s.table ==> s'.table[key] == |s.conns| && s'.conns[|s.conns|].carried == [])
  {
    hide NewConnTrackKey;
  }

  /** Service goes on: from every reachable state in which `Run` has not stopped and the listener
      is open, after a failed dial, a failed write or in the midst of either, the next datagram of
      any sender can be received and forwarded whole, on the connection of its key. */
  lemma NextIsForwarded(acts: seq<Action>, from: Addr, data: seq<byte>)
    requires Listening(Reached(acts)) && !Reached(acts).run.Stopped?
    ensures var s, key := Reached(acts), NewConnTrackKey(from);
            var s' := Exec(s, ForwardRun(from, data));
            && s'.run.Receiving? && key in s'.table && s'.table[key] < |s'.conns|
            && var before := if key in s.table && s.table[key] < |s.conns| then s.conns[s.table[key]].carried else [];
               s'.conns[s'.table[key]].carried == before + if data == [] then [] else [Chunk(from, data)]
  {
    Invariant(acts);
    hide NewConnTrackKey, Exec, After, Inv, Reached;
    var s := Reached(acts);
    var all := ForwardRun(from, data);
    var g1 := After(s, DialFails);
    var g2 := After(g1, Hit);
    var g3 := After(g2, ForwardFails);
    var g := After(g3, ForwardDone);
    GivesUp(s);
    StepKeepsInv(s, DialFails);
    StepKeepsInv(g1, Hit);
    StepKeepsInv(g2, ForwardFails);
    StepKeepsInv(g3, ForwardDone);
    TakesOne(g, from, data);
    var t1 := After(g, Receive(from, data));
    var t2 := After(t1, Hit);
    var t3 := After(t2, Dial);
    var t4 := After(t3, Forward(|data|));
    ExecAt(s, all, 0);
    ExecAt(g1, all, 1);
    ExecAt(g2, all, 2);
    ExecAt(g3, all, 3);
    ExecAt(g, all, 4);
    ExecAt(t1, all, 5);
    ExecAt(t2, all, 6);
    ExecAt(t3, all, 7);
    ExecAt(t4, all, 8);
    ExecEnd(After(t4, ForwardDone), all);
    assert all[0..] == all;
  }

  // The write loops -------------------------------------------------------------------------------

  /** The write loop of `Run` and of `replyLoop`: `written(i)` is what the write that starts at
      offset `i` reports. If each write that succeeds takes at least one byte and no more than
      it was given, the loop ends, and without an error the pieces are the datagram. */
  method WriteAll(peer: Addr, readBuf: array<byte>, read: nat, written: nat -> Option<nat>) returns (chunks: seq<Chunk>, failed: bool)
    requires read <= readBuf.Length
    requires forall i :: 0 <= i < read && written(i).Some? ==> 0 < written(i).value <= read - i
    ensures !failed ==> Bytes(chunks) == readBuf[..read]
    ensures failed ==> |Bytes(chunks)| < read && Bytes(chunks) == readBuf[..|Bytes(chunks)|] &&
                       written(|Bytes(chunks)|).None?
    ensures forall j :: 0 <= j < |chunks| ==> chunks[j].peer == peer && chunks[j].bytes != []
  {
    chunks := [];
    var i := 0;
    while i != read
      invariant i <= read
      invariant Bytes(chunks) == readBuf[..i]
      invariant forall j :: 0 <= j < |chunks| ==> chunks[j].peer == peer && chunks[j].bytes != []
      decreases read - i
    {
      var w := written(i);
      if w.None? {
        return chunks, true;
      }
      ghost var before := chunks;
      chunks := chunks + [Chunk(peer, readBuf[i..i + w.value])];
      assert chunks[..|chunks| - 1] == before;
      assert readBuf[..i] + readBuf[i..i + w.value] == readBuf[..i + w.value];
      i := i + w.value;
    }
    failed := false;
  }
}
