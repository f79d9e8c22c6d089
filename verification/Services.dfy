/** Servers that hold real tables and serve real requests: what they send goes to whoever they
    believe their successor to be, and one that faults is dead. Their steps are those of the
    network, with a crash exactly where serving the request faults. */
module Services {
  import opened CStrings
  import opened Hashing
  import opened Lists
  import opened Layouts
  import opened Operations
  import opened Messages
  import C = Chains
  import N = Networks

  datatype Host = Host(alive: bool, state: State, inbox: seq<Op>)

  /** A client sends an operation to a server, or a server handles one that another has sent. */
  datatype Work =
    | Client(who: nat, op: Op)
    | Peer(who: nat, index: nat)

  ghost predicate Sane(hosts: seq<Host>) {
    forall i :: 0 <= i < |hosts| ==> Represents(hosts[i].state.layout, hosts[i].state.store)
  }

  function MemberOf(h: Host): N.Member {
    N.Member(h.alive, h.state.at, h.state.store, h.inbox)
  }

  /** The network these servers are. */
  function NetOf(hosts: seq<Host>): N.Net {
    seq(|hosts|, i requires 0 <= i < |hosts| => MemberOf(hosts[i]))
  }

  function RequestOf(op: Op): Content {
    if op.Put? then PutRequest(op.key, op.value) else DelRequest(op.key)
  }

  /** One message is handed to the server its path names, if that lives. */
  function HandOne(hosts: seq<Host>, s: Sent): (hosts': seq<Host>)
    ensures |hosts'| == |hosts|
  {
    match N.Target(s.path, N.Paths(NetOf(hosts)))
    case None => hosts
    case Some(j) => if hosts[j].alive then hosts[j := hosts[j].(inbox := hosts[j].inbox + [s.op])] else hosts
  }

  function Hand(hosts: seq<Host>, sent: seq<Sent>): (hosts': seq<Host>)
    ensures |hosts'| == |hosts|
    decreases |sent|
  {
    if sent == [] then hosts else Hand(HandOne(hosts, sent[0]), sent[1..])
  }

  /** What serving a request does to the server, before any of what it sends arrives. */
  ghost function ServedBy(hosts: seq<Host>, i: nat, op: Op): Served
    requires Sane(hosts) && i < |hosts|
  {
    Serve(hosts[i].state.(sent := []), RequestOf(op))
  }

  /** Server i serves the request: its table changes, what it sends is handed over, and if serving
      faults it is dead and its messages are gone. */
  ghost function Answered(hosts: seq<Host>, i: nat, op: Op): (hosts': seq<Host>)
    requires Sane(hosts) && i < |hosts|
    ensures |hosts'| == |hosts|
  {
    var r := ServedBy(hosts, i, op);
    var after := Hand(hosts[i := hosts[i].(state := r.state.(sent := []))], r.state.sent);
    if r.reply == Fault then after[i := after[i].(alive := false, inbox := [])] else after
  }

  predicate Enabled(hosts: seq<Host>, w: Work) {
    w.who < |hosts| && hosts[w.who].alive && (w.Peer? ==> w.index < |hosts[w.who].inbox|)
  }

  /** The server without the message it is going to handle. */
  function Picked(hosts: seq<Host>, w: Work): (hosts': seq<Host>)
    requires Enabled(hosts, w)
    ensures |hosts'| == |hosts|
  {
    if w.Client? then hosts
    else hosts[w.who := hosts[w.who].(inbox := C.Without(hosts[w.who].inbox, w.index))]
  }

  function OpOf(hosts: seq<Host>, w: Work): Op
    requires Enabled(hosts, w)
  {
    if w.Client? then w.op else hosts[w.who].inbox[w.index]
  }

  ghost function Next(hosts: seq<Host>, w: Work): seq<Host>
    requires Sane(hosts) && Enabled(hosts, w)
  {
    Answered(Picked(hosts, w), w.who, OpOf(hosts, w))
  }

  /** The server faults on the request. */
  ghost predicate Fatal(hosts: seq<Host>, i: nat, op: Op)
    requires Sane(hosts) && i < |hosts|
  {
    ServedBy(hosts, i, op).reply == Fault
  }

  /** A server dies of a PUT exactly if the value is no string, and of a DEL exactly if the key is
      there or its slot is empty. */
  lemma FatalIff(hosts: seq<Host>, i: nat, op: Op)
    requires Sane(hosts) && i < |hosts|
    ensures var s := hosts[i].state;
            Fatal(hosts, i, op) <==>
            if op.Put? then !IsString(op.value) else op.key in s.store || s.layout[Slot(op.key, |s.layout|)] == []
  {
    var s := hosts[i].state.(sent := []);
    if op.Put? {
      PutIsServed(s, op.key, op.value, false);
    } else {
      DelIsSurvivedIff(s, op.key);
    }
  }

  /** The reply says that the operation has succeeded. */
  ghost predicate Success(hosts: seq<Host>, i: nat, op: Op)
    requires Sane(hosts) && i < |hosts|
  {
    var reply := ServedBy(hosts, i, op).reply;
    reply.Done? && reply.value.opcode in {OP_PUT + 1, OP_DEL + 1}
  }

  /** As written, a client is told of success exactly if the operation takes effect and is of the
      acknowledged kind, that is, a PUT of a string. */
  lemma SuccessIff(hosts: seq<Host>, i: nat, op: Op)
    requires Sane(hosts) && i < |hosts|
    ensures Success(hosts, i, op) <==> Effective(hosts[i].state.store, op) && Acked(op, false)
  {
    var s := hosts[i].state.(sent := []);
    if op.Put? {
      PutIsServed(s, op.key, op.value, false);
    } else {
      DelIsSurvivedIff(s, op.key);
    }
  }

  // ---- handing over is the network's sending ----

  lemma HandOneIsSend(hosts: seq<Host>, s: Sent)
    requires s.path != []
    ensures NetOf(HandOne(hosts, s)) == N.Send(NetOf(hosts), s.path, [s.op])
  {
  }

  lemma SendTwice(net: N.Net, path: CString, a: seq<Op>, b: seq<Op>)
    ensures N.Send(N.Send(net, path, a), path, b) == N.Send(net, path, a + b)
  {
    var net' := N.Send(net, path, a);
    assert N.Paths(net') == N.Paths(net);
    var t := N.Target(path, N.Paths(net));
    if path != [] && t.Some? && net[t.value].alive {
      assert net[t.value].inbox + a + b == net[t.value].inbox + (a + b);
    }
  }

  lemma {:induction false} HandIsSend(hosts: seq<Host>, path: CString, op: Op, n: nat)
    requires path != []
    ensures NetOf(Hand(hosts, SentCopies(path, op, n))) == N.Send(NetOf(hosts), path, Copies(op, n))
    decreases n
  {
    if n == 0 {
      assert SentCopies(path, op, n) == [] && Copies(op, n) == [];
      SendNothing(NetOf(hosts), path);
    } else {
      var s := Sent(path, op);
      assert SentCopies(path, op, n)[1..] == SentCopies(path, op, n - 1);
      HandOneIsSend(hosts, s);
      HandIsSend(HandOne(hosts, s), path, op, n - 1);
      SendTwice(NetOf(hosts), path, [op], Copies(op, n - 1));
      assert [op] + Copies(op, n - 1) == Copies(op, n);
    }
  }

  lemma SendNothing(net: N.Net, path: CString)
    ensures N.Send(net, path, []) == net
  {
    var t := N.Target(path, N.Paths(net));
    if path != [] && t.Some? {
      assert net[t.value].inbox + [] == net[t.value].inbox;
    }
  }

  /** What is sent, as the network has it. */
  lemma ServedSends(hosts: seq<Host>, i: nat, op: Op)
    requires Sane(hosts) && i < |hosts| && (op.Put? ==> IsString(op.value))
    ensures var h, r := hosts[i], ServedBy(hosts, i, op);
            && r.state.store == Apply(h.state.store, op) && r.state.at == h.state.at
            && r.state.sent == SentCopies(h.state.at.next, op,
                                          if Effective(h.state.store, op) then N.Sends(h.state.at, op, false) else 0)
  {
    var s := hosts[i].state.(sent := []);
    ServeKeepsTable(s, RequestOf(op));
    if op.Put? {
      PutIsServed(s, op.key, op.value, false);
    } else if op.key in s.store {
      EffectiveDelKills(s, op.key);
    } else {
      IneffectiveChangesNothing(s.store, op);
      RemoveRepresents(s.layout, s.store, op.key);
    }
  }

  /** Serving an operation is the network's processing of it with one forward of a DEL. */
  lemma AnsweredProcesses(hosts: seq<Host>, i: nat, op: Op)
    requires Sane(hosts) && i < |hosts| && (op.Put? ==> IsString(op.value))
    ensures var net' := N.Process(NetOf(hosts), i, op, false);
            NetOf(Answered(hosts, i, op)) ==
            if Fatal(hosts, i, op) then net'[i := net'[i].(alive := false, inbox := [])] else net'
  {
    var h, r := hosts[i], ServedBy(hosts, i, op);
    var n := if Effective(h.state.store, op) then N.Sends(h.state.at, op, false) else 0;
    var hosts1 := hosts[i := h.(state := r.state.(sent := []))];
    ServedSends(hosts, i, op);
    assert NetOf(hosts1) == NetOf(hosts)[i := NetOf(hosts)[i].(store := Apply(h.state.store, op))];
    if h.state.at.next != [] {
      HandIsSend(hosts1, h.state.at.next, op, n);
      assert Copies(op, n) == Forwarded(h.state.store, op, N.Sends(h.state.at, op, false));
    } else {
      assert SentCopies(h.state.at.next, op, n) == [];
    }
    assert NetOf(Hand(hosts1, r.state.sent)) == N.Process(NetOf(hosts), i, op, false);
  }

  // ---- steps of the servers are events of the network ----

  /** The network's events for a step: the operation with one forward of a DEL, then a crash exactly
      if the server faults. A PUT of what is no string faults before it does anything. */
  ghost function EventsOf(hosts: seq<Host>, w: Work): seq<N.Event>
    requires Sane(hosts) && Enabled(hosts, w)
  {
    var op := OpOf(hosts, w);
    var event := if w.Client? then N.Submit(w.who, op, false) else N.Handle(w.who, w.index, false);
    var crash := if Fatal(hosts, w.who, op) then [N.Crash(w.who)] else [];
    if op.Put? && !IsString(op.value) then crash else [event] + crash
  }

  lemma PickedIsSane(hosts: seq<Host>, w: Work)
    requires Sane(hosts) && Enabled(hosts, w)
    ensures Sane(Picked(hosts, w))
    ensures Fatal(Picked(hosts, w), w.who, OpOf(hosts, w)) <==> Fatal(hosts, w.who, OpOf(hosts, w))
  {
  }

  lemma BadPut(hosts: seq<Host>, i: nat, op: Op)
    requires Sane(hosts) && i < |hosts| && op.Put? && !IsString(op.value)
    ensures Fatal(hosts, i, op)
    ensures NetOf(Answered(hosts, i, op)) == NetOf(hosts)[i := NetOf(hosts)[i].(alive := false, inbox := [])]
  {
    FatalIff(hosts, i, op);
    assert ServedBy(hosts, i, op).state.sent == [];
  }

  lemma PickedProcesses(hosts: seq<Host>, w: Work)
    requires Enabled(hosts, w)
    ensures var net := NetOf(hosts);
            var event := if w.Client? then N.Submit(w.who, w.op, false) else N.Handle(w.who, w.index, false);
            && N.Enabled(net, event)
            && N.Next(net, event) == N.Process(NetOf(Picked(hosts, w)), w.who, OpOf(hosts, w), false)
  {
    var net := NetOf(hosts);
    assert NetOf(Picked(hosts, w)) ==
           if w.Client? then net else net[w.who := net[w.who].(inbox := C.Without(net[w.who].inbox, w.index))];
  }

  /** A step of the servers is these events of the network. */
  lemma WorkRefines(hosts: seq<Host>, w: Work)
    requires Sane(hosts) && Enabled(hosts, w)
    ensures N.CanRun(NetOf(hosts), EventsOf(hosts, w))
    ensures NetOf(Next(hosts, w)) == N.Exec(NetOf(hosts), EventsOf(hosts, w))
  {
    var op, net, hosts1 := OpOf(hosts, w), NetOf(hosts), Picked(hosts, w);
    PickedIsSane(hosts, w);
    if op.Put? && !IsString(op.value) {
      FatalIff(hosts, w.who, op);
      BadPut(hosts1, w.who, op);
      OneEvent(net, N.Crash(w.who));
      assert NetOf(Next(hosts, w)) == N.Next(net, N.Crash(w.who));
    } else {
      var event := if w.Client? then N.Submit(w.who, op, false) else N.Handle(w.who, w.index, false);
      AnsweredProcesses(hosts1, w.who, op);
      PickedProcesses(hosts, w);
      ProcessKeepsAlive(NetOf(hosts1), w.who, op);
      if Fatal(hosts, w.who, op) {
        TwoEvents(net, event, N.Crash(w.who));
        assert [event] + [N.Crash(w.who)] == [event, N.Crash(w.who)];
      } else {
        OneEvent(net, event);
        assert [event] + [] == [event];
      }
    }
  }

  lemma ProcessKeepsAlive(net: N.Net, i: nat, op: Op)
    requires i < |net|
    ensures N.Process(net, i, op, false)[i].alive == net[i].alive
  {
  }

  lemma OneEvent(net: N.Net, e: N.Event)
    requires N.Enabled(net, e)
    ensures N.CanRun(net, [e]) && N.Exec(net, [e]) == N.Next(net, e)
  {
    assert [e][1..] == [];
  }

  lemma TwoEvents(net: N.Net, e1: N.Event, e2: N.Event)
    requires N.Enabled(net, e1) && N.Enabled(N.Next(net, e1), e2)
    ensures N.CanRun(net, [e1, e2]) && N.Exec(net, [e1, e2]) == N.Next(N.Next(net, e1), e2)
  {
    OneEvent(N.Next(net, e1), e2);
    assert [e1, e2][1..] == [e2];
  }

  // ---- runs ----

  lemma {:induction false} HandKeepsStates(hosts: seq<Host>, sent: seq<Sent>)
    ensures forall i :: 0 <= i < |hosts| ==>
              Hand(hosts, sent)[i].state == hosts[i].state && Hand(hosts, sent)[i].alive == hosts[i].alive
    decreases |sent|
  {
    if sent != [] {
      HandKeepsStates(HandOne(hosts, sent[0]), sent[1..]);
    }
  }

  /** Whatever they serve, tables represent maps. */
  lemma NextIsSane(hosts: seq<Host>, w: Work)
    requires Sane(hosts) && Enabled(hosts, w)
    ensures Sane(Next(hosts, w)) && |Next(hosts, w)| == |hosts|
  {
    var hosts1, op := Picked(hosts, w), OpOf(hosts, w);
    var r := ServedBy(hosts1, w.who, op);
    ServeKeepsTable(hosts1[w.who].state.(sent := []), RequestOf(op));
    HandKeepsStates(hosts1[w.who := hosts1[w.who].(state := r.state.(sent := []))], r.state.sent);
  }

  ghost predicate CanRun(hosts: seq<Host>, ws: seq<Work>)
    requires Sane(hosts)
    decreases |ws|
  {
    ws == [] || (Enabled(hosts, ws[0]) && Sane(Next(hosts, ws[0])) && CanRun(Next(hosts, ws[0]), ws[1..]))
  }

  ghost function Exec(hosts: seq<Host>, ws: seq<Work>): (hosts': seq<Host>)
    requires Sane(hosts) && CanRun(hosts, ws)
    ensures Sane(hosts') && |hosts'| == |hosts|
    decreases |ws|
  {
    if ws == [] then hosts
    else
      NextIsSane(hosts, ws[0]);
      Exec(Next(hosts, ws[0]), ws[1..])
  }

  // ---- new servers ----

  /** Until its watcher has run a new server answers no read, and sends nothing anywhere. */
  lemma NewServerIsAside(net: N.Net, s: State, c: Content)
    requires N.Enabled(net, N.Create(s.store)) && N.Next(net, N.Create(s.store))[|net|].at == s.at
    requires Represents(s.layout, s.store)
    ensures c.opcode in {OP_GET, OP_SIZE, OP_GETTABLE, OP_STATS} ==>
              Serve(s, c).reply.Done? && Refuses(Serve(s, c).reply.value, c)
    ensures Serve(s, c).state.sent == s.sent
  {
  }

  // ---- PUTs kill nobody ----

  predicate OnlyPuts(hosts: seq<Host>) {
    forall i :: 0 <= i < |hosts| ==> StringPuts(hosts[i].inbox)
  }

  lemma {:induction false} HandKeepsPuts(hosts: seq<Host>, sent: seq<Sent>)
    requires OnlyPuts(hosts) && forall j :: 0 <= j < |sent| ==> StringPut(sent[j].op)
    ensures OnlyPuts(Hand(hosts, sent))
    decreases |sent|
  {
    if sent != [] {
      HandKeepsPuts(HandOne(hosts, sent[0]), sent[1..]);
    }
  }

  lemma PutStep(hosts: seq<Host>, w: Work)
    requires Sane(hosts) && Enabled(hosts, w) && OnlyPuts(hosts) && (w.Client? ==> StringPut(w.op))
    ensures OnlyPuts(Next(hosts, w))
    ensures forall i :: 0 <= i < |hosts| ==> Next(hosts, w)[i].alive == hosts[i].alive
  {
    PutAnswered(Picked(hosts, w), w.who, OpOf(hosts, w));
  }

  lemma PutAnswered(hosts: seq<Host>, i: nat, op: Op)
    requires Sane(hosts) && i < |hosts| && OnlyPuts(hosts) && StringPut(op)
    ensures OnlyPuts(Answered(hosts, i, op))
    ensures forall x :: 0 <= x < |hosts| ==> Answered(hosts, i, op)[x].alive == hosts[x].alive
  {
    var r := ServedBy(hosts, i, op);
    var hosts1 := hosts[i := hosts[i].(state := r.state.(sent := []))];
    FatalIff(hosts, i, op);
    ServedSends(hosts, i, op);
    HandKeepsStates(hosts1, r.state.sent);
    HandKeepsPuts(hosts1, r.state.sent);
  }

  /** Over any run of PUTs of strings, with messages in any order, nobody dies. */
  lemma {:induction false} PutsKillNobody(hosts: seq<Host>, ws: seq<Work>)
    requires Sane(hosts) && CanRun(hosts, ws) && OnlyPuts(hosts)
    requires forall j :: 0 <= j < |ws| && ws[j].Client? ==> StringPut(ws[j].op)
    ensures forall i :: 0 <= i < |hosts| ==> Exec(hosts, ws)[i].alive == hosts[i].alive
    decreases |ws|
  {
    if ws != [] {
      PutStep(hosts, ws[0]);
      NextIsSane(hosts, ws[0]);
      PutsKillNobody(Next(hosts, ws[0]), ws[1..]);
    }
  }
}
