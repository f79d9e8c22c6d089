/** The servers as they really find each other: each knows a path computed from its own,
    possibly stale, list of children, and every message goes to whoever that path names.
    Members are numbered in order of creation, which by NodeNameOrder is name order. */
module Networks {
  import opened CStrings
  import opened Entries
  import opened Layouts
  import opened Operations
  import opened Chains
  import opened Topology
  import opened Draining

  /** inbox holds the messages sent to this member that it has not handled yet. */
  datatype Member = Member(alive: bool, at: Position, store: Store, inbox: seq<Op>)

  type Net = seq<Member>

  /** second says whether the second forward of a successful DEL takes place: as written it
      does not, because handle_client then reads the missing entry and the server dies, which
      is a Crash following the step. */
  datatype Event =
    | Create(store: Store)
    | Crash(who: nat)
    | Refresh(who: nat, children: seq<CString>)
    | Submit(who: nat, op: Op, second: bool)
    | Handle(who: nat, index: nat, second: bool)

  predicate Enabled(net: Net, e: Event) {
    match e
    case Create(_) => |net| < MAX_NODES
    case Crash(i) => i < |net| && net[i].alive
    case Refresh(i, children) => i < |net| && net[i].alive && children != []
    case Submit(i, _, _) => i < |net| && net[i].alive
    case Handle(i, j, _) => i < |net| && net[i].alive && j < |net[i].inbox|
  }

  /** How often invoke and handle_client together forward a successful operation. */
  function Sends(at: Position, op: Op, second: bool): nat {
    if at.next == [] then 0
    else (if at.isTail then 0 else 1) + (if op.Put? || second then 1 else 0)
  }

  function PathOf(i: nat): CString {
    CHAIN_PREFIX + NodeName(i)
  }

  function Paths(net: Net): seq<CString> {
    seq(|net|, i requires 0 <= i < |net| => PathOf(i))
  }

  /** The member a path names. */
  function Target(path: CString, paths: seq<CString>): (t: Option<nat>)
    ensures t.Some? ==> t.value < |paths| && path == paths[t.value]
  {
    if paths == [] then None
    else if path == paths[|paths| - 1] then Some(|paths| - 1)
    else Target(path, paths[..|paths| - 1])
  }

  /** Messages for a member that is not there, or not alive, are lost. */
  function Send(net: Net, path: CString, ops: seq<Op>): (net': Net)
    ensures |net'| == |net|
  {
    if path == [] then net
    else match Target(path, Paths(net))
         case None => net
         case Some(j) => if net[j].alive then net[j := net[j].(inbox := net[j].inbox + ops)] else net
  }

  function Process(net: Net, i: nat, op: Op, second: bool): (net': Net)
    requires i < |net|
    ensures |net'| == |net|
  {
    var m := net[i];
    Send(net[i := m.(store := Apply(m.store, op))], m.at.next, Forwarded(m.store, op, Sends(m.at, op, second)))
  }

  /** A new member starts with no successor and not as tail. A crash takes the messages waiting
      for the member with it; those it sent stay under way. */
  function Next(net: Net, e: Event): Net
    requires Enabled(net, e)
  {
    match e
    case Create(store) => net + [Member(true, Position([], false), store, [])]
    case Crash(i) => net[i := net[i].(alive := false, inbox := [])]
    case Refresh(i, children) => net[i := net[i].(at := Watch(net[i].at, NodeName(i), children))]
    case Submit(i, op, second) => Process(net, i, op, second)
    case Handle(i, j, second) =>
      Process(net[i := net[i].(inbox := Without(net[i].inbox, j))], i, net[i].inbox[j], second)
  }

  predicate CanRun(net: Net, es: seq<Event>)
    decreases |es|
  {
    es == [] || (Enabled(net, es[0]) && CanRun(Next(net, es[0]), es[1..]))
  }

  function Exec(net: Net, es: seq<Event>): Net
    requires CanRun(net, es)
    decreases |es|
  {
    if es == [] then net else Exec(Next(net, es[0]), es[1..])
  }

  // ---- every pointer goes up ----

  ghost predicate Above(at: Position, me: CString) {
    && (at.next != [] ==> exists x :: at.next == CHAIN_PREFIX + x && Less(me, x))
    && (at.isTail ==> at.next == [])
  }

  /** Every nonempty next pointer names a strictly greater node than its owner, and the tail
      has none. */
  ghost predicate Upward(net: Net) {
    |net| <= MAX_NODES && forall i :: 0 <= i < |net| ==> Above(net[i].at, NodeName(i))
  }

  lemma WatchGoesUp(p: Position, me: CString, children: seq<CString>)
    requires Above(p, me) && children != []
    ensures Above(Watch(p, me, children), me)
  {
    var s := SortNames(children);
    SortNamesSorts(children);
    NextAfterGoesUp(s, |s|, me, p.next);
    if s[|s| - 1] == me {
      assert NextAfter(s, |s|, me, p.next) == [];
    }
  }

  /** Also when the list has the server's own name more than once: its last occurrence decides. */
  lemma {:induction false} NextAfterGoesUp(s: seq<CString>, i: nat, me: CString, before: CString)
    requires Ascending(s) && i <= |s| && (forall j :: i <= j < |s| ==> s[j] != me)
    requires before != [] ==> exists x :: before == CHAIN_PREFIX + x && Less(me, x)
    ensures var r := NextAfter(s, i, me, before);
            r != [] ==> exists x :: r == CHAIN_PREFIX + x && Less(me, x)
  {
    if i > 0 {
      if s[i - 1] == me {
        if i < |s| {
          LessIsTotal(s[i - 1], s[i]);
        }
      } else {
        NextAfterGoesUp(s, i - 1, me, before);
      }
    }
  }

  ghost predicate SamePositions(a: Net, b: Net) {
    |a| == |b| && forall i :: 0 <= i < |a| ==> a[i].at == b[i].at
  }

  lemma ProcessKeepsPositions(net: Net, i: nat, op: Op, second: bool)
    requires i < |net|
    ensures SamePositions(Process(net, i, op, second), net)
  {
  }

  lemma UpwardByPositions(net: Net, net': Net)
    requires Upward(net) && SamePositions(net', net)
    ensures Upward(net')
  {
    forall i | 0 <= i < |net'| ensures Above(net'[i].at, NodeName(i)) {
      assert Above(net[i].at, NodeName(i));
    }
  }

  lemma StepKeepsUpward(net: Net, e: Event)
    requires Upward(net) && Enabled(net, e)
    ensures Upward(Next(net, e))
  {
    match e
    case Create(store) => CreateKeepsUpward(net, store);
    case Crash(i) => UpwardByPositions(net, Next(net, e));
    case Refresh(i, children) => RefreshKeepsUpward(net, i, children);
    case Submit(i, op, second) =>
      ProcessKeepsPositions(net, i, op, second);
      UpwardByPositions(net, Next(net, e));
    case Handle(i, j, second) =>
      var net1 := net[i := net[i].(inbox := Without(net[i].inbox, j))];
      ProcessKeepsPositions(net1, i, net[i].inbox[j], second);
      UpwardByPositions(net, Next(net, e));
  }

  lemma CreateKeepsUpward(net: Net, store: Store)
    requires Upward(net) && |net| < MAX_NODES
    ensures Upward(Next(net, Create(store)))
  {
    var net' := Next(net, Create(store));
    forall i | 0 <= i < |net'| ensures Above(net'[i].at, NodeName(i)) {
      assert i < |net| ==> Above(net[i].at, NodeName(i));
    }
  }

  lemma RefreshKeepsUpward(net: Net, who: nat, children: seq<CString>)
    requires Upward(net) && who < |net| && net[who].alive && children != []
    ensures Upward(Next(net, Refresh(who, children)))
  {
    var net' := Next(net, Refresh(who, children));
    assert Above(net[who].at, NodeName(who));
    WatchGoesUp(net[who].at, NodeName(who), children);
    forall i | 0 <= i < |net'| ensures Above(net'[i].at, NodeName(i)) {
      assert i != who ==> Above(net[i].at, NodeName(i));
    }
  }

  lemma {:induction false} RunKeepsUpward(net: Net, es: seq<Event>)
    requires Upward(net) && CanRun(net, es)
    ensures Upward(Exec(net, es))
    decreases |es|
  {
    if es != [] {
      StepKeepsUpward(net, es[0]);
      RunKeepsUpward(Next(net, es[0]), es[1..]);
    }
  }

  lemma {:induction false} TargetFinds(paths: seq<CString>, j: nat)
    requires Distinct(paths) && j < |paths|
    ensures Target(paths[j], paths) == Some(j)
  {
    if j < |paths| - 1 {
      TargetFinds(paths[..|paths| - 1], j);
    }
  }

  lemma PathsDiffer(i: nat, j: nat)
    requires i < MAX_NODES && j < MAX_NODES
    ensures PathOf(i) == PathOf(j) <==> i == j
  {
    NodeNameOrder(i, j);
    assert PathOf(i)[|CHAIN_PREFIX|..] == NodeName(i);
    assert PathOf(j)[|CHAIN_PREFIX|..] == NodeName(j);
  }

  lemma TargetOfPath(net: Net, j: nat)
    requires j < |net| <= MAX_NODES
    ensures Target(PathOf(j), Paths(net)) == Some(j)
  {
    forall a, b | 0 <= a < b < |net| ensures PathOf(a) != PathOf(b) {
      PathsDiffer(a, b);
    }
    TargetFinds(Paths(net), j);
  }

  /** Member i sends to member j. */
  predicate Hop(net: Net, i: nat, j: nat) {
    i < |net| && net[i].at.next != [] && Target(net[i].at.next, Paths(net)) == Some(j)
  }

  /** In every reachable state a message is forwarded to a strictly later member. */
  lemma ForwardingGoesUp(net: Net, i: nat, j: nat)
    requires Upward(net) && Hop(net, i, j)
    ensures i < j < |net|
  {
    assert Above(net[i].at, NodeName(i));
    var x :| net[i].at.next == CHAIN_PREFIX + x && Less(NodeName(i), x);
    assert (CHAIN_PREFIX + x)[|CHAIN_PREFIX|..] == x;
    assert PathOf(j)[|CHAIN_PREFIX|..] == NodeName(j);
    NodeNameOrder(i, j);
  }

  /** A message passes from one member of hops to the next in successive states of a run. */
  ghost predicate Journey(states: seq<Net>, hops: seq<nat>) {
    |hops| == |states| + 1 && forall k :: 0 <= k < |states| ==> Hop(states[k], hops[k], hops[k + 1])
  }

  lemma HopsClimb(states: seq<Net>, hops: seq<nat>, k: nat)
    requires Journey(states, hops) && k < |states| && Upward(states[k])
    ensures hops[k] < hops[k + 1]
  {
    assert Hop(states[k], hops[k], hops[k + 1]);
    ForwardingGoesUp(states[k], hops[k], hops[k + 1]);
  }

  lemma {:induction false} ClimbingIsStrict(hops: seq<nat>, k: nat, l: nat)
    requires k < l < |hops| && forall s :: 0 <= s < |hops| - 1 ==> hops[s] < hops[s + 1]
    ensures hops[k] < hops[l]
    decreases l
  {
    assert hops[l - 1] < hops[l - 1 + 1];
    if k < l - 1 {
      ClimbingIsStrict(hops, k, l - 1);
    }
  }

  /** However lists change between its hops, no message visits a server twice. */
  lemma NoServerIsRevisited(states: seq<Net>, hops: seq<nat>, k: nat, l: nat)
    requires Journey(states, hops) && k < l < |hops|
    requires forall s :: 0 <= s < |states| ==> Upward(states[s])
    ensures hops[k] < hops[l]
  {
    forall s | 0 <= s < |states| ensures hops[s] < hops[s + 1] {
      HopsClimb(states, hops, s);
    }
    ClimbingIsStrict(hops, k, l);
  }

  // ---- deliveries come to an end whatever the lists say ----

  function Inboxes(net: Net): seq<seq<Op>> {
    seq(|net|, i requires 0 <= i < |net| => net[i].inbox)
  }

  predicate NoNewWork(e: Event) {
    e.Handle? || e.Refresh? || e.Crash?
  }

  function Handled(es: seq<Event>): nat {
    if es == [] then 0 else (if es[0].Handle? then 1 else 0) + Handled(es[1..])
  }

  /** A message lands in at most one inbox. */
  lemma SendInboxes(net: Net, path: CString, ops: seq<Op>)
    ensures var t := Target(path, Paths(net));
            Inboxes(Send(net, path, ops)) ==
            if path != [] && t.Some? && net[t.value].alive
            then Inboxes(net)[t.value := net[t.value].inbox + ops] else Inboxes(net)
  {
  }

  lemma HandleUsesUp(net: Net, i: nat, j: nat, second: bool)
    requires Upward(net) && Enabled(net, Handle(i, j, second))
    ensures Pending(Inboxes(Next(net, Handle(i, j, second)))) < Pending(Inboxes(net))
  {
    var m, op := net[i], net[i].inbox[j];
    var rest := Without(m.inbox, j);
    var more := Forwarded(m.store, op, Sends(m.at, op, second));
    var net1 := net[i := m.(inbox := rest, store := Apply(m.store, op))];
    var net0 := net[i := m.(inbox := rest)];
    assert net0[i := net0[i].(store := Apply(m.store, op))] == net1;
    assert Next(net, Handle(i, j, second)) == Send(net1, m.at.next, more);
    SendInboxes(net1, m.at.next, more);
    assert Inboxes(net1) == Inboxes(net)[i := rest] && Paths(net1) == Paths(net);
    var t := Target(m.at.next, Paths(net));
    if m.at.next != [] && t.Some? && net1[t.value].alive {
      assert i < t.value by { ForwardingGoesUp(net, i, t.value); }
      HandlingDecreases(Inboxes(net), i, rest, t.value, more);
    } else {
      HandlingLastDecreases(Inboxes(net), i, rest);
    }
  }

  lemma QuietStepAddsNothing(net: Net, e: Event)
    requires Enabled(net, e) && (e.Refresh? || e.Crash?)
    ensures Pending(Inboxes(Next(net, e))) <= Pending(Inboxes(net))
  {
    if e.Refresh? {
      assert Inboxes(Next(net, e)) == Inboxes(net);
    } else {
      assert Inboxes(Next(net, e)) == Inboxes(net)[e.who := []];
      PendingUpdate(Inboxes(net), e.who, []);
      AtLeastZero(|net[e.who].inbox|, Weight(|net| - 1 - e.who));
      MinusTimes(0, |net[e.who].inbox|, Weight(|net| - 1 - e.who));
    }
  }

  /** With clients stopped and no server joining, at most Pending messages are ever handled, in
      any interleaving with crashes and with refreshes on arbitrary lists. */
  lemma {:induction false} HandlingEnds(net: Net, es: seq<Event>)
    requires Upward(net) && CanRun(net, es) && forall i :: 0 <= i < |es| ==> NoNewWork(es[i])
    ensures Handled(es) <= Pending(Inboxes(net))
    decreases |es|
  {
    if es != [] {
      StepKeepsUpward(net, es[0]);
      HandlingEnds(Next(net, es[0]), es[1..]);
      if es[0].Handle? {
        HandleUsesUp(net, es[0].who, es[0].index, es[0].second);
      } else {
        QuietStepAddsNothing(net, es[0]);
      }
    }
  }
}
