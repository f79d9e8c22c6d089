/** What a whole connection comes to: the requests of one client, served in order until they end
    or the server dies. */
module Sessions {
  import opened CStrings
  import opened Lists
  import opened Layouts
  import opened Operations
  import opened Topology
  import opened Messages
  import N = Networks

  ghost function ServeAll(s: State, requests: seq<Content>): (State, Outcome<seq<Content>>)
    requires Represents(s.layout, s.store)
    decreases |requests|
  {
    if requests == [] then (s, Done([]))
    else
      var r := Serve(s, requests[0]);
      ServeKeepsTable(s, requests[0]);
      match r.reply
      case Fault => (r.state, Fault)
      case Done(reply) =>
        var rest := ServeAll(r.state, requests[1..]);
        (rest.0, Prefixed([reply], rest.1))
  }

  function Prefixed(replies: seq<Content>, rest: Outcome<seq<Content>>): Outcome<seq<Content>> {
    match rest
    case Fault => Fault
    case Done(more) => Done(replies + more)
  }

  lemma PrefixedNil(rest: Outcome<seq<Content>>)
    ensures Prefixed([], rest) == rest
  {
    if rest.Done? {
      assert [] + rest.value == rest.value;
    }
  }

  lemma PrefixedTwice(a: seq<Content>, b: seq<Content>, rest: Outcome<seq<Content>>)
    ensures Prefixed(a, Prefixed(b, rest)) == Prefixed(a + b, rest)
  {
    if rest.Done? {
      assert a + (b + rest.value) == (a + b) + rest.value;
    }
  }

  // ---- request by request ----

  ghost predicate Answers(s: State, request: Content, s': State, reply: Content) {
    Represents(s.layout, s.store) && Serve(s, request) == Served(s', Done(reply))
  }

  ghost predicate DiesAt(s: State, request: Content, end: State) {
    Represents(s.layout, s.store) && Serve(s, request) == Served(end, Fault)
  }

  /** Serving the i-th request has taken the server from the i-th state to the next one, and the
      i-th reply is what it said. */
  ghost predicate Along(ss: seq<State>, requests: seq<Content>, replies: seq<Content>) {
    && |ss| == |replies| + 1 && |replies| <= |requests|
    && forall i :: 0 <= i < |replies| ==> Answers(ss[i], requests[i], ss[i + 1], replies[i])
  }

  /** Every request has been answered, and this is the state the server is left in. */
  ghost predicate AllAnswered(ss: seq<State>, requests: seq<Content>, replies: seq<Content>, s: State, end: State) {
    Along(ss, requests, replies) && |replies| == |requests| && ss[0] == s && ss[|replies|] == end
  }

  /** The server has died of the first request it has not answered. */
  ghost predicate DiedOf(ss: seq<State>, requests: seq<Content>, replies: seq<Content>, s: State, end: State) {
    && Along(ss, requests, replies) && |replies| < |requests| && ss[0] == s
    && DiesAt(ss[|replies|], requests[|replies|], end)
  }

  /** What happens on a connection, without recursion. */
  ghost predicate Account(s: State, requests: seq<Content>, end: State, outcome: Outcome<seq<Content>>) {
    match outcome
    case Done(replies) => exists ss :: AllAnswered(ss, requests, replies, s, end)
    case Fault => exists ss, replies :: DiedOf(ss, requests, replies, s, end)
  }

  lemma AlongFirst(ss: seq<State>, requests: seq<Content>, replies: seq<Content>)
    requires ss != [] && requests != [] && replies != [] && Along(ss[1..], requests[1..], replies[1..])
    requires Answers(ss[0], requests[0], ss[1], replies[0])
    ensures Along(ss, requests, replies)
  {
    forall i | 0 < i < |replies| ensures Answers(ss[i], requests[i], ss[i + 1], replies[i]) {
      assert Answers(ss[1..][i - 1], requests[1..][i - 1], ss[1..][i], replies[1..][i - 1]);
    }
  }

  lemma AlongRest(ss: seq<State>, requests: seq<Content>, replies: seq<Content>)
    requires Along(ss, requests, replies) && replies != []
    ensures Along(ss[1..], requests[1..], replies[1..]) && Answers(ss[0], requests[0], ss[1], replies[0])
  {
    forall i | 0 <= i < |replies| - 1
      ensures Answers(ss[1..][i], requests[1..][i], ss[1..][i + 1], replies[1..][i])
    {
      assert Answers(ss[i + 1], requests[i + 1], ss[i + 2], replies[i + 1]);
    }
  }

  lemma {:induction false} ServeAllHasAccount(s: State, requests: seq<Content>)
    requires Represents(s.layout, s.store)
    ensures Account(s, requests, ServeAll(s, requests).0, ServeAll(s, requests).1)
    decreases |requests|
  {
    if requests == [] {
      assert AllAnswered([s], requests, [], s, s);
    } else {
      var r := Serve(s, requests[0]);
      ServeKeepsTable(s, requests[0]);
      if r.reply == Fault {
        assert DiedOf([s], requests, [], s, r.state);
      } else {
        var rest := ServeAll(r.state, requests[1..]);
        ServeAllHasAccount(r.state, requests[1..]);
        FirstAccount(s, requests, r.state, r.reply.value, rest.0, rest.1);
      }
    }
  }

  lemma FirstAccount(s: State, requests: seq<Content>, s': State, reply: Content, end: State,
                     rest: Outcome<seq<Content>>)
    requires requests != [] && Answers(s, requests[0], s', reply) && Account(s', requests[1..], end, rest)
    ensures Account(s, requests, end, Prefixed([reply], rest))
  {
    match rest
    case Done(replies) =>
      var ss :| AllAnswered(ss, requests[1..], replies, s', end);
      assert ([s] + ss)[1..] == ss && ([reply] + replies)[1..] == replies;
      AlongFirst([s] + ss, requests, [reply] + replies);
      assert AllAnswered([s] + ss, requests, [reply] + replies, s, end);
    case Fault =>
      var ss, replies :| DiedOf(ss, requests[1..], replies, s', end);
      assert ([s] + ss)[1..] == ss && ([reply] + replies)[1..] == replies;
      AlongFirst([s] + ss, requests, [reply] + replies);
      assert DiedOf([s] + ss, requests, [reply] + replies, s, end);
  }

  lemma {:induction false} AnsweredIsServed(ss: seq<State>, requests: seq<Content>, replies: seq<Content>,
                                            s: State, end: State)
    requires Represents(s.layout, s.store) && AllAnswered(ss, requests, replies, s, end)
    ensures ServeAll(s, requests) == (end, Done(replies))
    decreases |requests|
  {
    if requests != [] {
      AlongRest(ss, requests, replies);
      ServeKeepsTable(s, requests[0]);
      AnsweredIsServed(ss[1..], requests[1..], replies[1..], ss[1], end);
      assert replies == [replies[0]] + replies[1..];
    }
  }

  lemma {:induction false} DeathIsServed(ss: seq<State>, requests: seq<Content>, replies: seq<Content>,
                                         s: State, end: State)
    requires Represents(s.layout, s.store) && DiedOf(ss, requests, replies, s, end)
    ensures ServeAll(s, requests) == (end, Fault)
    decreases |requests|
  {
    if replies != [] {
      AlongRest(ss, requests, replies);
      ServeKeepsTable(s, requests[0]);
      DeathIsServed(ss[1..], requests[1..], replies[1..], ss[1], end);
    }
  }

  /** A connection ends in this way exactly if every request has been served in the state the one
      before it left, each with its reply, up to the last one or the first the server dies of. */
  lemma ConnectionIff(s: State, requests: seq<Content>, end: State, outcome: Outcome<seq<Content>>)
    requires Represents(s.layout, s.store)
    ensures ServeAll(s, requests) == (end, outcome) <==> Account(s, requests, end, outcome)
  {
    ServeAllHasAccount(s, requests);
    if Account(s, requests, end, outcome) {
      match outcome
      case Done(replies) =>
        var ss :| AllAnswered(ss, requests, replies, s, end);
        AnsweredIsServed(ss, requests, replies, s, end);
      case Fault =>
        var ss, replies :| DiedOf(ss, requests, replies, s, end);
        DeathIsServed(ss, requests, replies, s, end);
    }
  }

  // ---- two connections, one after the other ----

  lemma {:induction false} ServeAllKeepsTable(s: State, requests: seq<Content>)
    requires Represents(s.layout, s.store)
    ensures var end := ServeAll(s, requests).0;
            Represents(end.layout, end.store) && |end.layout| == |s.layout| && end.at == s.at
    decreases |requests|
  {
    if requests != [] {
      ServeKeepsTable(s, requests[0]);
      if Serve(s, requests[0]).reply.Done? {
        ServeAllKeepsTable(Serve(s, requests[0]).state, requests[1..]);
      }
    }
  }

  /** It makes no difference whether requests come on one connection or on two. */
  lemma {:induction false} ServeAllConcat(s: State, a: seq<Content>, b: seq<Content>)
    requires Represents(s.layout, s.store) && ServeAll(s, a).1.Done?
    ensures Represents(ServeAll(s, a).0.layout, ServeAll(s, a).0.store)
    ensures var (end, replies) := (ServeAll(s, a).0, ServeAll(s, a).1.value);
            ServeAll(s, a + b) == (ServeAll(end, b).0, Prefixed(replies, ServeAll(end, b).1))
    decreases |a|
  {
    ServeAllKeepsTable(s, a);
    if a == [] {
      assert a + b == b;
      PrefixedNil(ServeAll(s, b).1);
    } else {
      var r := Serve(s, a[0]);
      ServeKeepsTable(s, a[0]);
      assert (a + b)[0] == a[0] && (a + b)[1..] == a[1..] + b;
      ServeAllConcat(r.state, a[1..], b);
      var (end, more) := (ServeAll(r.state, a[1..]).0, ServeAll(r.state, a[1..]).1.value);
      PrefixedTwice([r.reply.value], more, ServeAll(end, b).1);
    }
  }

  lemma ServeOne(s: State, c: Content)
    requires Represents(s.layout, s.store)
    ensures var r := Serve(s, c);
            ServeAll(s, [c]) == (r.state, if r.reply.Done? then Done([r.reply.value]) else Fault)
  {
    ServeKeepsTable(s, c);
    assert [c][1..] == [];
    if Serve(s, c).reply.Done? {
      assert [Serve(s, c).reply.value] + [] == [Serve(s, c).reply.value];
    }
  }

  // ---- PUTs, and a GET behind them ----

  function PutRequests(ops: seq<Op>): seq<Content>
    requires StringPuts(ops)
  {
    seq(|ops|, i requires 0 <= i < |ops| => PutRequest(ops[i].key, ops[i].value))
  }

  /** What is sent to the successor on account of these PUTs. */
  function Forwards(at: Position, ops: seq<Op>): seq<Sent> {
    if ops == [] then []
    else SentCopies(at.next, ops[0], N.Sends(at, ops[0], true)) + Forwards(at, ops[1..])
  }

  /** Each request was a PUT that has succeeded. */
  predicate Acknowledged(replies: seq<Content>, requests: seq<Content>) {
    && |replies| == |requests|
    && forall i :: 0 <= i < |replies| ==> Replies(replies[i], requests[i], OP_PUT + 1, CT_NONE)
  }

  lemma AcknowledgedFirst(reply: Content, c: Content, replies: seq<Content>, requests: seq<Content>)
    requires Replies(reply, c, OP_PUT + 1, CT_NONE) && Acknowledged(replies, requests)
    ensures Acknowledged([reply] + replies, [c] + requests)
  {
  }

  lemma FirstPut(s: State, ops: seq<Op>)
    requires Represents(s.layout, s.store) && StringPuts(ops) && ops != []
    ensures var r := Serve(s, PutRequest(ops[0].key, ops[0].value));
            && Represents(r.state.layout, r.state.store) && r.state.at == s.at
            && r.state.store == Apply(s.store, ops[0])
            && r.state.sent == s.sent + SentCopies(s.at.next, ops[0], N.Sends(s.at, ops[0], true))
            && r.reply.Done? && Replies(r.reply.value, PutRequests(ops)[0], OP_PUT + 1, CT_NONE)
            && var rest := ServeAll(r.state, PutRequests(ops[1..]));
               ServeAll(s, PutRequests(ops)) == (rest.0, Prefixed([r.reply.value], rest.1))
  {
    assert StringPut(ops[0]) && ops[0] == Put(ops[0].key, ops[0].value);
    ServeKeepsTable(s, PutRequest(ops[0].key, ops[0].value));
    PutIsServed(s, ops[0].key, ops[0].value, true);
    assert PutRequests(ops)[1..] == PutRequests(ops[1..]);
  }

  /** The PUTs have been acknowledged and applied in this order, and their copies sent in the same
      order. */
  predicate PutsServed(s: State, ops: seq<Op>, end: State, replies: seq<Content>)
    requires StringPuts(ops)
  {
    && end.at == s.at && end.store == ApplyAll(s.store, ops) && end.sent == s.sent + Forwards(s.at, ops)
    && Acknowledged(replies, PutRequests(ops))
  }

  lemma NextPuts(s: State, ops: seq<Op>, s': State, reply: Content, end: State, replies: seq<Content>)
    requires StringPuts(ops) && ops != []
    requires s'.at == s.at && s'.store == Apply(s.store, ops[0])
    requires s'.sent == s.sent + SentCopies(s.at.next, ops[0], N.Sends(s.at, ops[0], true))
    requires Replies(reply, PutRequests(ops)[0], OP_PUT + 1, CT_NONE)
    requires PutsServed(s', ops[1..], end, replies)
    ensures PutsServed(s, ops, end, [reply] + replies)
  {
    var copies, more := SentCopies(s.at.next, ops[0], N.Sends(s.at, ops[0], true)), Forwards(s.at, ops[1..]);
    assert (s.sent + copies) + more == s.sent + (copies + more);
    assert PutRequests(ops) == [PutRequests(ops)[0]] + PutRequests(ops[1..]);
    AcknowledgedFirst(reply, PutRequests(ops)[0], replies, PutRequests(ops[1..]));
  }

  /** n PUTs of strings get n acknowledgements; the store is what they make of it in this order. */
  lemma {:induction false} PutsAreServed(s: State, ops: seq<Op>)
    requires Represents(s.layout, s.store) && StringPuts(ops)
    ensures var (end, outcome) := ServeAll(s, PutRequests(ops));
            && Represents(end.layout, end.store)
            && outcome.Done? && |outcome.value| == |ops| && PutsServed(s, ops, end, outcome.value)
    decreases |ops|
  {
    if ops == [] {
      assert s.sent + [] == s.sent;
    } else {
      var r := Serve(s, PutRequest(ops[0].key, ops[0].value));
      FirstPut(s, ops);
      PutsAreServed(r.state, ops[1..]);
      var (end, outcome) := ServeAll(r.state, PutRequests(ops[1..]));
      NextPuts(s, ops, r.state, r.reply.value, end, outcome.value);
    }
  }

  /** Whoever PUTs and then GETs at a tail reads the last of its own PUTs, or what was there before
      if it has not PUT that key. */
  lemma ReadsOwnWrites(s: State, ops: seq<Op>, k: CString)
    requires Represents(s.layout, s.store) && StringPuts(ops) && s.at.isTail
    ensures var (end, outcome) := ServeAll(s, PutRequests(ops) + [GetRequest(k)]);
            && outcome.Done? && |outcome.value| == |ops| + 1
            && var reply := outcome.value[|ops|];
               match LastOn(ops, k)
               case Some(op) => op.Put? && Shows(reply, GetRequest(k), op.value)
               case None => if k in s.store then Shows(reply, GetRequest(k), s.store[k])
                            else Refuses(reply, GetRequest(k))
  {
    PutsAreServed(s, ops);
    ServeAllConcat(s, PutRequests(ops), [GetRequest(k)]);
    var (end, outcome) := ServeAll(s, PutRequests(ops));
    ServeOne(end, GetRequest(k));
    GetIsServed(end, GetRequest(k));
    ApplyAllAt(s.store, ops, k);
    LastOnPut(ops, k);
  }

  lemma LastOnPut(ops: seq<Op>, k: CString)
    requires StringPuts(ops)
    ensures LastOn(ops, k).Some? ==> LastOn(ops, k).value.Put?
  {
    LastOnIsMember(ops, k);
    if LastOn(ops, k).Some? {
      var i :| 0 <= i < |ops| && ops[i] == LastOn(ops, k).value;
      assert StringPut(ops[i]);
    }
  }
}
