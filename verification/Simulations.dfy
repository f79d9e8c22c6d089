/** Every run of the network is a run of the chain, event for event: same stores, same messages
    under way, same effective writes. Crashes and joins may come at any time, work goes on before
    anyone has noticed them, and servers may refresh on lists that are out of date. So what holds
    of the chain holds of the servers. */
module Simulations {
  import opened CStrings
  import opened Entries
  import opened Operations
  import opened Refinements
  import C = Chains
  import D = Draining
  import H = Histories
  import L = HeadLosses
  import N = Networks
  import P = PerKey
  import W = Windows

  /** The live servers are a chain, and there is no other. */
  ghost predicate Serves(net: N.Net, order: seq<nat>) {
    Serving(net, order) && Complete(net, order)
  }

  /** A crash leaves someone alive, and ZooKeeper's lists were current at some time. */
  ghost predicate Fair(net: N.Net, order: seq<nat>, e: N.Event) {
    match e
    case Crash(_) => |order| > 1
    case Refresh(_, children) => OnceListed(net, order, children)
    case _ => true
  }

  ghost predicate OnceListed(net: N.Net, order: seq<nat>, children: seq<CString>) {
    exists listed :: OnceCurrent(net, order, listed) && multiset(children) == multiset(Names(listed))
  }

  /** Where member i is in the chain. */
  function PlaceOf(order: seq<nat>, i: nat): (k: nat)
    requires i in order
    ensures k < |order| && order[k] == i
  {
    if order[|order| - 1] == i then |order| - 1 else PlaceOf(order[..|order| - 1], i)
  }

  /** The live members after an event. */
  function OrderAfter(net: N.Net, order: seq<nat>, e: N.Event): seq<nat> {
    match e
    case Crash(i) => if i in order then C.Without(order, PlaceOf(order, i)) else order
    case Create(_) => order + [|net|]
    case _ => order
  }

  /** The chain's step for an event of the network. */
  ghost function StepOf(net: N.Net, order: seq<nat>, e: N.Event): C.Event
    requires Serves(net, order) && N.Enabled(net, e) && Fair(net, order, e)
  {
    match e
    case Submit(i, op, second) => C.Write(PlaceOf(order, i), op, CopiesAt(net, order, PlaceOf(order, i), op, second))
    case Handle(i, j, second) =>
      var k := PlaceOf(order, i);
      HandleOf(k, j, CopiesAt(net, order, k, net[i].inbox[j], second))
    case Crash(i) => Loss(Abs(net, order), PlaceOf(order, i))
    case Create(s) => C.Join(s)
    case Refresh(_, _) => C.Skip
  }

  function HandleOf(k: nat, j: nat, copies: nat): C.Event {
    if k == 0 then C.Settle(j, copies) else C.Deliver(k - 1, j, copies)
  }

  /** The write that takes effect in an event, if any. */
  function EffectiveNow(net: N.Net, e: N.Event): seq<Op>
    requires N.Enabled(net, e)
  {
    if e.Submit? && Effective(net[e.who].store, e.op) then [e.op] else []
  }

  /** The writes that take effect along a run, in order. */
  function EffectiveBy(net: N.Net, es: seq<N.Event>): seq<Op>
    requires N.CanRun(net, es)
    decreases |es|
  {
    if es == [] then [] else EffectiveNow(net, es[0]) + EffectiveBy(N.Next(net, es[0]), es[1..])
  }

  /** The writes acknowledged along a run: a DEL only where its second forward took place. */
  function AckedBy(net: N.Net, es: seq<N.Event>): seq<Op>
    requires N.CanRun(net, es)
    decreases |es|
  {
    if es == [] then []
    else (if es[0].Submit? then AckedOf(EffectiveNow(net, es[0]), es[0].second) else [])
         + AckedBy(N.Next(net, es[0]), es[1..])
  }

  // ---- acknowledged writes are effective ----

  lemma {:induction false} SubsequencesConcat(a: seq<Op>, b: seq<Op>, a': seq<Op>, b': seq<Op>)
    requires Subsequence(a, b) && Subsequence(a', b')
    ensures Subsequence(a + a', b + b')
    decreases |b'|
  {
    if a' == [] {
      assert a + a' == a;
      MoreBehind(a, b, b');
    } else {
      var rest := b'[..|b'| - 1];
      assert (b + b')[..|b + b'| - 1] == b + rest;
      if Subsequence(a', rest) {
        SubsequencesConcat(a, b, a', rest);
      } else {
        SubsequencesConcat(a, b, a'[..|a'| - 1], rest);
        assert (a + a')[..|a + a'| - 1] == a + a'[..|a'| - 1];
      }
    }
  }

  lemma {:induction false} MoreBehind(a: seq<Op>, b: seq<Op>, more: seq<Op>)
    requires Subsequence(a, b)
    ensures Subsequence(a, b + more)
    decreases |more|
  {
    if more == [] {
      assert b + more == b;
    } else {
      MoreBehind(a, b, more[..|more| - 1]);
      assert (b + more)[..|b + more| - 1] == b + more[..|more| - 1];
    }
  }

  /** What clients are told of is a sub-list, in order, of what takes effect. */
  lemma {:induction false} AckedAreEffective(net: N.Net, es: seq<N.Event>)
    requires N.CanRun(net, es)
    ensures Subsequence(AckedBy(net, es), EffectiveBy(net, es))
    decreases |es|
  {
    if es != [] {
      AckedAreEffective(N.Next(net, es[0]), es[1..]);
      var now, rest := EffectiveNow(net, es[0]), EffectiveBy(N.Next(net, es[0]), es[1..]);
      var told := if es[0].Submit? then AckedOf(now, es[0].second) else [];
      if es[0].Submit? {
        AckedOfIsSublist(now, es[0].second);
      }
      SubsequencesConcat(told, now, AckedBy(N.Next(net, es[0]), es[1..]), rest);
    }
  }

  // ---- one event ----

  /** The event is this step of the chain, and the same write takes effect in both. */
  ghost predicate Simulates(net: N.Net, order: seq<nat>, e: N.Event, ce: C.Event, order': seq<nat>)
    requires N.Enabled(net, e)
  {
    var net' := N.Next(net, e);
    && Serves(net, order) && Serves(net', order') && C.Enabled(Abs(net, order), ce)
    && Abs(net', order') == C.Next(Abs(net, order), ce)
    && C.StepEffect(Abs(net, order), ce) == EffectiveNow(net, e)
  }

  lemma SameWiringIsComplete(net: N.Net, net': N.Net, order: seq<nat>)
    requires Complete(net, order) && SameWiring(net, net')
    ensures Complete(net', order)
  {
  }

  lemma SubmitSimulates(net: N.Net, order: seq<nat>, k: nat, op: Op, second: bool)
    requires Serves(net, order) && k < |order|
    ensures Simulates(net, order, N.Submit(order[k], op, second),
                      C.Write(k, op, CopiesAt(net, order, k, op, second)), order)
  {
    SubmitRefines(net, order, k, op, second);
    SameWiringIsComplete(net, N.Next(net, N.Submit(order[k], op, second)), order);
  }

  lemma HandleSimulates(net: N.Net, order: seq<nat>, k: nat, j: nat, second: bool)
    requires Serves(net, order) && k < |order| && j < |net[order[k]].inbox|
    ensures Simulates(net, order, N.Handle(order[k], j, second),
                      HandleOf(k, j, CopiesAt(net, order, k, net[order[k]].inbox[j], second)), order)
  {
    if k == 0 {
      HandleAtHeadSimulates(net, order, j, second);
    } else {
      HandleLaterSimulates(net, order, k, j, second);
    }
  }

  lemma HandleAtHeadSimulates(net: N.Net, order: seq<nat>, j: nat, second: bool)
    requires Serves(net, order) && j < |net[order[0]].inbox|
    ensures Simulates(net, order, N.Handle(order[0], j, second),
                      C.Settle(j, CopiesAt(net, order, 0, net[order[0]].inbox[j], second)), order)
  {
    HandleAtHeadRefines(net, order, j, second);
    SameWiringIsComplete(net, N.Next(net, N.Handle(order[0], j, second)), order);
  }

  lemma HandleLaterSimulates(net: N.Net, order: seq<nat>, k: nat, j: nat, second: bool)
    requires Serves(net, order) && 0 < k < |order| && j < |net[order[k]].inbox|
    ensures Simulates(net, order, N.Handle(order[k], j, second),
                      C.Deliver(k - 1, j, CopiesAt(net, order, k, net[order[k]].inbox[j], second)), order)
  {
    HandleRefines(net, order, k, j, second);
    SameWiringIsComplete(net, N.Next(net, N.Handle(order[k], j, second)), order);
  }

  lemma RefreshSimulates(net: N.Net, order: seq<nat>, k: nat, children: seq<CString>)
    requires Serves(net, order) && k < |order| && children != [] && OnceListed(net, order, children)
    ensures Simulates(net, order, N.Refresh(order[k], children), C.Skip, order)
  {
    var listed :| OnceCurrent(net, order, listed) && multiset(children) == multiset(Names(listed));
    RefreshSimulatesOn(net, order, k, listed, children);
  }

  lemma RefreshSimulatesOn(net: N.Net, order: seq<nat>, k: nat, listed: seq<nat>, children: seq<CString>)
    requires Serves(net, order) && k < |order| && children != []
    requires OnceCurrent(net, order, listed) && multiset(children) == multiset(Names(listed))
    ensures Simulates(net, order, N.Refresh(order[k], children), C.Skip, order)
  {
    RefreshRefines(net, order, k, listed, children);
  }

  lemma CrashSimulates(net: N.Net, order: seq<nat>, k: nat)
    requires Serves(net, order) && k < |order| && |order| > 1
    ensures Simulates(net, order, N.Crash(order[k]), Loss(Abs(net, order), k), C.Without(order, k))
  {
    CrashRefines(net, order, k);
  }

  lemma CreateSimulates(net: N.Net, order: seq<nat>, store: Store)
    requires Serves(net, order) && |net| < MAX_NODES
    ensures Simulates(net, order, N.Create(store), C.Join(store), order + [|net|])
  {
    JoinRefines(net, order, store);
  }

  lemma EventSimulates(net: N.Net, order: seq<nat>, e: N.Event)
    requires Serves(net, order) && N.Enabled(net, e) && Fair(net, order, e)
    ensures Simulates(net, order, e, StepOf(net, order, e), OrderAfter(net, order, e))
  {
    match e
    case Submit(i, op, second) => SubmitSimulates(net, order, PlaceOf(order, i), op, second);
    case Handle(i, j, second) => HandleSimulates(net, order, PlaceOf(order, i), j, second);
    case Refresh(i, children) => RefreshSimulates(net, order, PlaceOf(order, i), children);
    case Crash(i) => CrashSimulates(net, order, PlaceOf(order, i));
    case Create(s) => CreateSimulates(net, order, s);
  }

  // ---- whole runs ----

  ghost predicate FairRun(net: N.Net, order: seq<nat>, es: seq<N.Event>)
    requires N.CanRun(net, es)
    decreases |es|
  {
    es == [] || (Fair(net, order, es[0]) && FairRun(N.Next(net, es[0]), OrderAfter(net, order, es[0]), es[1..]))
  }

  function FinalOrder(net: N.Net, order: seq<nat>, es: seq<N.Event>): seq<nat>
    requires N.CanRun(net, es)
    decreases |es|
  {
    if es == [] then order else FinalOrder(N.Next(net, es[0]), OrderAfter(net, order, es[0]), es[1..])
  }

  ghost function ChainRun(net: N.Net, order: seq<nat>, es: seq<N.Event>): (ces: seq<C.Event>)
    requires Serves(net, order) && N.CanRun(net, es) && FairRun(net, order, es)
    ensures |ces| == |es|
    decreases |es|
  {
    if es == [] then []
    else
      EventSimulates(net, order, es[0]);
      [StepOf(net, order, es[0])] + ChainRun(N.Next(net, es[0]), OrderAfter(net, order, es[0]), es[1..])
  }

  /** Every fair run of the servers is a run of the chain, event for event. */
  lemma {:induction false} RunsAreChainRuns(net: N.Net, order: seq<nat>, es: seq<N.Event>)
    requires Serves(net, order) && N.CanRun(net, es) && FairRun(net, order, es)
    ensures var c, ces, net', order' :=
              Abs(net, order), ChainRun(net, order, es), N.Exec(net, es), FinalOrder(net, order, es);
            && Serves(net', order') && C.CanRun(c, ces) && C.Exec(c, ces) == Abs(net', order')
            && C.EffectiveWrites(c, ces) == EffectiveBy(net, es)
    decreases |es|
  {
    if es != [] {
      EventSimulates(net, order, es[0]);
      RunsAreChainRuns(N.Next(net, es[0]), OrderAfter(net, order, es[0]), es[1..]);
      assert ChainRun(net, order, es)[1..] == ChainRun(N.Next(net, es[0]), OrderAfter(net, order, es[0]), es[1..]);
    }
  }

  /** The lists of earlier states of a run are once current. */
  lemma {:induction false} EarlierListsAreFair(net: N.Net, order: seq<nat>, es: seq<N.Event>)
    requires Serves(net, order) && N.CanRun(net, es) && FairRun(net, order, es)
    ensures OnceCurrent(N.Exec(net, es), FinalOrder(net, order, es), order)
    ensures |net| <= |N.Exec(net, es)|
    decreases |es|
  {
    RunsAreChainRuns(net, order, es);
    OrderShrinks(net, order, es);
    var net', order' := N.Exec(net, es), FinalOrder(net, order, es);
    forall x, y | 0 <= y < x < |order'| && order'[x] in order ensures order'[y] in order {
      assert Before(order', y, x);
    }
  }

  /** Who is alive after a run and was there before it was alive before it. */
  lemma {:induction false} OrderShrinks(net: N.Net, order: seq<nat>, es: seq<N.Event>)
    requires Serves(net, order) && N.CanRun(net, es) && FairRun(net, order, es)
    ensures |net| <= |N.Exec(net, es)|
    ensures forall i :: i in FinalOrder(net, order, es) && i < |net| ==> i in order
    decreases |es|
  {
    if es != [] {
      EventSimulates(net, order, es[0]);
      OrderShrinks(N.Next(net, es[0]), OrderAfter(net, order, es[0]), es[1..]);
    }
  }

  // ---- before a crash or a join has been noticed ----

  /** Whatever happens but a refresh of the k-th server, a crash or a join. */
  predicate Unnoticed(order: seq<nat>, k: nat, e: N.Event) {
    e.Submit? || e.Handle? || (e.Refresh? && k < |order| && e.who != order[k])
  }

  lemma PositionStays(net: N.Net, e: N.Event, i: nat)
    requires N.Enabled(net, e) && i < |net| && (e.Submit? || e.Handle? || (e.Refresh? && e.who != i))
    ensures |N.Next(net, e)| == |net| && N.Next(net, e)[i].at == net[i].at
  {
    match e
    case Submit(j, op, second) => N.ProcessKeepsPositions(net, j, op, second);
    case Handle(j, m, second) => N.ProcessKeepsPositions(Emptied(net, j, m), j, net[j].inbox[m], second);
    case Refresh(_, _) =>
  }

  lemma SilentStep(net: N.Net, order: seq<nat>, k: nat, e: N.Event)
    requires Serves(net, order) && N.Enabled(net, e) && Fair(net, order, e)
    requires k < |order| && !Linked(net, order, k) && Unnoticed(order, k, e)
    ensures W.InWindow(k, StepOf(net, order, e))
  {
  }

  lemma UnnoticedStep(net: N.Net, order: seq<nat>, k: nat, e: N.Event)
    requires Serves(net, order) && N.Enabled(net, e) && Fair(net, order, e)
    requires k < |order| && !Linked(net, order, k) && Unnoticed(order, k, e)
    ensures OrderAfter(net, order, e) == order
    ensures Serves(N.Next(net, e), order) && !Linked(N.Next(net, e), order, k)
  {
    EventSimulates(net, order, e);
    PositionStays(net, e, order[k]);
  }

  /** As long as the k-th server has not noticed, the run is one of the chain's window. */
  lemma {:induction false} UnnoticedRun(net: N.Net, order: seq<nat>, k: nat, es: seq<N.Event>)
    requires Serves(net, order) && N.CanRun(net, es) && FairRun(net, order, es)
    requires k < |order| && !Linked(net, order, k) && forall i :: 0 <= i < |es| ==> Unnoticed(order, k, es[i])
    ensures forall i :: 0 <= i < |es| ==> W.InWindow(k, ChainRun(net, order, es)[i])
    ensures FinalOrder(net, order, es) == order
    decreases |es|
  {
    if es != [] {
      SilentStep(net, order, k, es[0]);
      UnnoticedStep(net, order, k, es[0]);
      UnnoticedRun(N.Next(net, es[0]), order, k, es[1..]);
      assert ChainRun(net, order, es)[1..] == ChainRun(N.Next(net, es[0]), order, es[1..]);
    }
  }

  /** A run before server k notices, in which the two parts of the chain do their work without doing
      harm. */
  ghost predicate Window(net: N.Net, order: seq<nat>, k: nat, es: seq<N.Event>) {
    && Serves(net, order) && k + 1 < |order| && N.CanRun(net, es) && FairRun(net, order, es)
    && (forall i :: 0 <= i < |es| ==> Unnoticed(order, k, es[i]))
    && W.SoundWindow(Abs(net, order), k, ChainRun(net, order, es))
  }

  /** The writes that take effect behind server k. */
  ghost function WrittenBehind(net: N.Net, order: seq<nat>, k: nat, es: seq<N.Event>): seq<Op>
    requires Window(net, order, k, es)
  {
    C.EffectiveWrites(W.Lower(Abs(net, order), k), W.LowerRun(k, ChainRun(net, order, es)))
  }

  /** The run leaves the chain on course exactly if server k ends with this store and what clients
      have written behind it. */
  ghost predicate OnCourseIff(net: N.Net, order: seq<nat>, k: nat, es: seq<N.Event>, promised: Store)
    requires Window(net, order, k, es)
  {
    var net' := N.Exec(net, es);
    && Serves(net', order)
    && (C.LinksHold(Abs(net', order)) <==>
         net'[order[k]].store == ApplyAll(promised, WrittenBehind(net, order, k, es)))
  }

  lemma WindowRefines(net: N.Net, order: seq<nat>, k: nat, es: seq<N.Event>)
    requires Window(net, order, k, es) && !Linked(net, order, k)
    ensures var c, ces := Abs(net, order), ChainRun(net, order, es);
            && Serves(N.Exec(net, es), order) && C.CanRun(c, ces) && W.WindowRun(c, k, ces)
            && C.Exec(c, ces) == Abs(N.Exec(net, es), order)
  {
    UnnoticedRun(net, order, k, es);
    RunsAreChainRuns(net, order, es);
  }

  /** What is known of the chain's window, said of the servers. */
  lemma OnCourseOfServers(net: N.Net, order: seq<nat>, k: nat, es: seq<N.Event>, c: C.Chain, ces: seq<C.Event>,
                          promised: Store)
    requires Window(net, order, k, es) && !Linked(net, order, k)
    requires c == Abs(net, order) && ces == ChainRun(net, order, es)
    requires C.CanRun(c, ces) && k < |C.Exec(c, ces).replicas|
    requires C.LinksHold(C.Exec(c, ces)) <==>
             C.Exec(c, ces).replicas[k] == ApplyAll(promised, C.EffectiveWrites(W.Lower(c, k), W.LowerRun(k, ces)))
    ensures OnCourseIff(net, order, k, es, promised)
  {
    WindowRefines(net, order, k, es);
    assert Abs(N.Exec(net, es), order).replicas[k] == N.Exec(net, es)[order[k]].store;
  }

  /** Server k+1 crashes, and others behind it live: whatever is written and handled anywhere before
      server k notices, the chain comes out of it on course exactly if server k ends with what the
      crashed one held and what clients have written behind it since. */
  lemma CrashWindow(net: N.Net, order: seq<nat>, k: nat, es: seq<N.Event>)
    requires Serves(net, order) && C.LinksHold(Abs(net, order)) && k + 2 < |order|
    requires Window(N.Next(net, N.Crash(order[k + 1])), C.Without(order, k + 1), k, es)
    ensures OnCourseIff(N.Next(net, N.Crash(order[k + 1])), C.Without(order, k + 1), k, es, net[order[k + 1]].store)
  {
    var net1, rest := N.Next(net, N.Crash(order[k + 1])), C.Without(order, k + 1);
    CrashRefines(net, order, k + 1);
    CrashWires(net, order, k + 1, k);
    var c, ces := Abs(net, order), ChainRun(net1, rest, es);
    W.CrashWindowIff(c, k, ces);
    OnCourseOfServers(net1, rest, k, es, Abs(net1, rest), ces, c.replicas[k + 1]);
  }

  /** A server joins: whatever is written and handled anywhere before the last one notices, the chain
      comes out of it on course exactly if that one ends with what the joiner was loaded with and
      what clients have written there since. */
  lemma JoinWindow(net: N.Net, order: seq<nat>, store: Store, es: seq<N.Event>)
    requires Serves(net, order) && C.LinksHold(Abs(net, order)) && N.Enabled(net, N.Create(store))
    requires Window(N.Next(net, N.Create(store)), order + [|net|], |order| - 1, es)
    ensures OnCourseIff(N.Next(net, N.Create(store)), order + [|net|], |order| - 1, es, store)
  {
    var net1, more, k := N.Next(net, N.Create(store)), order + [|net|], |order| - 1;
    JoinRefines(net, order, store);
    LastIsNotLinked(net, order, store);
    var c, ces := Abs(net, order), ChainRun(net1, more, es);
    assert |c.links| == k;
    W.JoinWindowIff(c, store, ces);
    OnCourseOfServers(net1, more, k, es, Abs(net1, more), ces, store);
  }

  /** Nobody sends to a server that has just been created. */
  lemma LastIsNotLinked(net: N.Net, order: seq<nat>, store: Store)
    requires Serves(net, order) && N.Enabled(net, N.Create(store))
    ensures !Linked(N.Next(net, N.Create(store)), order + [|net|], |order| - 1)
  {
    var k := |order| - 1;
    assert Wired(net, order, k);
    if net[order[k]].at.next != [] {
      var j: nat :| DeadAt(net, j, net[order[k]].at.next);
      N.PathsDiffer(j, |net|);
    } else {
      assert N.PathOf(|net|) != [];
    }
  }

  // ---- what holds of the chain holds of the servers ----

  /** Serving with equal stores and nothing to handle. */
  ghost predicate Fresh(net: N.Net, order: seq<nat>, base: Store) {
    Serves(net, order) && forall k :: 0 <= k < |order| ==> net[order[k]].store == base && net[order[k]].inbox == []
  }

  ghost predicate Idle(net: N.Net, order: seq<nat>) {
    Serves(net, order) && forall k :: 0 <= k < |order| ==> net[order[k]].inbox == []
  }

  ghost predicate AllHold(net: N.Net, order: seq<nat>, s: Store) {
    Serves(net, order) && forall k :: 0 <= k < |order| ==> net[order[k]].store == s
  }

  ghost function LastStore(net: N.Net, order: seq<nat>): Store
    requires Serves(net, order)
  {
    net[order[|order| - 1]].store
  }

  /** The first server is a fresh chain of its own, so all that follows holds of every fair run from
      there on. */
  lemma FirstServerIsFresh(base: Store)
    ensures Fresh(N.Next([], N.Create(base)), [0], base)
  {
    var net := N.Next([], N.Create(base));
    assert Severed(net, 0);
    forall k | 0 <= k < |[0]| ensures Wired(net, [0], k) {
    }
  }

  lemma FreshIsStart(net: N.Net, order: seq<nat>, base: Store)
    requires Fresh(net, order, base)
    ensures Abs(net, order) == C.Start(|order|, base)
  {
    var a, b := Abs(net, order), C.Start(|order|, base);
    assert a.replicas == b.replicas && a.links == b.links;
  }

  lemma IdleIsQuiet(net: N.Net, order: seq<nat>)
    requires Idle(net, order)
    ensures D.Quiet(Abs(net, order))
  {
  }

  lemma EqualToTail(c: C.Chain, k: nat)
    requires C.WellFormed(c) && C.AllEqual(c) && k < |c.replicas|
    ensures c.replicas[k] == C.Tail(c)
  {
  }

  lemma AllHoldOf(net: N.Net, order: seq<nat>, s: Store)
    requires Serves(net, order) && forall k :: 0 <= k < |order| ==> Abs(net, order).replicas[k] == s
    ensures AllHold(net, order, s)
  {
    forall k | 0 <= k < |order| ensures net[order[k]].store == s {
      assert Abs(net, order).replicas[k] == s;
    }
  }

  /** After any run of which each step was safe: servers with nothing left to handle hold the same
      store. */
  lemma RunsAgree(net: N.Net, order: seq<nat>, base: Store, es: seq<N.Event>)
    requires Fresh(net, order, base) && N.CanRun(net, es) && FairRun(net, order, es)
    requires var c, ces := Abs(net, order), ChainRun(net, order, es); C.CanRun(c, ces) && C.SafeRun(c, ces)
    requires Idle(N.Exec(net, es), FinalOrder(net, order, es))
    ensures var net', order' := N.Exec(net, es), FinalOrder(net, order, es);
            AllHold(net', order', LastStore(net', order'))
  {
    var net', order' := N.Exec(net, es), FinalOrder(net, order, es);
    RunsAreChainRuns(net, order, es);
    FreshIsStart(net, order, base);
    IdleIsQuiet(net', order');
    C.ReplicasAgree(|order|, base, ChainRun(net, order, es));
    forall k | 0 <= k < |order'| ensures Abs(net', order').replicas[k] == LastStore(net', order') {
      EqualToTail(Abs(net', order'), k);
    }
    AllHoldOf(net', order', LastStore(net', order'));
  }

  /** If moreover no step put a write in effect at risk, that store is the outcome of all the writes
      that took effect, in order. */
  lemma WritesArrive(net: N.Net, order: seq<nat>, base: Store, es: seq<N.Event>)
    requires Fresh(net, order, base) && N.CanRun(net, es) && FairRun(net, order, es)
    requires var c, ces := Abs(net, order), ChainRun(net, order, es);
             C.CanRun(c, ces) && C.SafeRun(c, ces) && L.LosslessRun(c, ces)
    requires Idle(N.Exec(net, es), FinalOrder(net, order, es))
    ensures AllHold(N.Exec(net, es), FinalOrder(net, order, es), ApplyAll(base, EffectiveBy(net, es)))
  {
    var net', order' := N.Exec(net, es), FinalOrder(net, order, es);
    RunsAreChainRuns(net, order, es);
    FreshIsStart(net, order, base);
    IdleIsQuiet(net', order');
    forall k | 0 <= k < |order'| ensures Abs(net', order').replicas[k] == ApplyAll(base, EffectiveBy(net, es)) {
      L.EffectiveWritesSurvive(|order|, base, ChainRun(net, order, es), k);
    }
    AllHoldOf(net', order', ApplyAll(base, EffectiveBy(net, es)));
  }

  /** What the last server holds in the states of a run. */
  ghost function LastsAlong(net: N.Net, order: seq<nat>, es: seq<N.Event>): seq<Store>
    requires Serves(net, order) && N.CanRun(net, es) && FairRun(net, order, es)
    decreases |es|
  {
    if es == [] then [LastStore(net, order)]
    else
      EventSimulates(net, order, es[0]);
      [LastStore(net, order)] + LastsAlong(N.Next(net, es[0]), OrderAfter(net, order, es[0]), es[1..])
  }

  /** The writes in effect so far, in the states of a run. */
  function EffectsAlong(net: N.Net, es: seq<N.Event>, before: seq<Op>): seq<seq<Op>>
    requires N.CanRun(net, es)
    decreases |es|
  {
    [before] + if es == [] then [] else EffectsAlong(N.Next(net, es[0]), es[1..], before + EffectiveNow(net, es[0]))
  }

  lemma {:induction false} LastsAreTails(net: N.Net, order: seq<nat>, es: seq<N.Event>)
    requires Serves(net, order) && N.CanRun(net, es) && FairRun(net, order, es)
    requires C.CanRun(Abs(net, order), ChainRun(net, order, es))
    ensures LastsAlong(net, order, es) == H.TailsAlong(Abs(net, order), ChainRun(net, order, es))
    decreases |es|
  {
    assert C.Tail(Abs(net, order)) == LastStore(net, order);
    if es != [] {
      EventSimulates(net, order, es[0]);
      LastsAreTails(N.Next(net, es[0]), OrderAfter(net, order, es[0]), es[1..]);
      assert ChainRun(net, order, es)[1..] == ChainRun(N.Next(net, es[0]), OrderAfter(net, order, es[0]), es[1..]);
    }
  }

  lemma {:induction false} EffectsAreEffects(net: N.Net, order: seq<nat>, es: seq<N.Event>, before: seq<Op>)
    requires Serves(net, order) && N.CanRun(net, es) && FairRun(net, order, es)
    requires C.CanRun(Abs(net, order), ChainRun(net, order, es))
    ensures EffectsAlong(net, es, before) == H.EffectsAlong(Abs(net, order), ChainRun(net, order, es), before)
    decreases |es|
  {
    if es != [] {
      EventSimulates(net, order, es[0]);
      EffectsAreEffects(N.Next(net, es[0]), OrderAfter(net, order, es[0]), es[1..], before + EffectiveNow(net, es[0]));
      assert ChainRun(net, order, es)[1..] == ChainRun(N.Next(net, es[0]), OrderAfter(net, order, es[0]), es[1..]);
    }
  }

  /** Read the last server as often as you like, across crashes and joins: the reads are at points of
      the list of writes that took effect at the servers, and never go back. */
  lemma ReadsMoveForward(net: N.Net, order: seq<nat>, base: Store, es: seq<N.Event>)
    requires Fresh(net, order, base) && N.CanRun(net, es) && FairRun(net, order, es)
    requires var c, ces := Abs(net, order), ChainRun(net, order, es);
             C.CanRun(c, ces) && H.OrderlyRun(c, ces) && H.SettledRun(c, ces)
    ensures H.ReadsForward(base, EffectiveBy(net, es), LastsAlong(net, order, es), EffectsAlong(net, es, []))
  {
    RunsAreChainRuns(net, order, es);
    LastsAreTails(net, order, es);
    EffectsAreEffects(net, order, es, []);
    FreshIsStart(net, order, base);
    H.TailReadsMoveForward(|order|, base, ChainRun(net, order, es));
  }

  /** The same of the reads of one key, with order asked for within that key alone. */
  lemma KeyReadsMoveForward(net: N.Net, order: seq<nat>, base: Store, es: seq<N.Event>, k: CString)
    requires Fresh(net, order, base) && N.CanRun(net, es) && FairRun(net, order, es)
    requires var c, ces := Abs(net, order), ChainRun(net, order, es); C.CanRun(c, ces) && P.KeyOrderlyRun(c, ces, k)
    ensures P.KeyReadsForward(base, k, OnKey(EffectiveBy(net, es), k), P.ValuesOf(LastsAlong(net, order, es), k),
                              P.OnKeyEach(EffectsAlong(net, es, []), k))
  {
    RunsAreChainRuns(net, order, es);
    LastsAreTails(net, order, es);
    EffectsAreEffects(net, order, es, []);
    FreshIsStart(net, order, base);
    P.KeyReadsMoveForward(|order|, base, ChainRun(net, order, es), k);
  }
}
