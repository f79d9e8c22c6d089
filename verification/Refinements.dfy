/** The live servers, in order of creation, are a chain at every moment: a server that knows the
    next live one sends to it, and one that does not sends to nobody. Every event of the network
    is a step of that chain, also between a crash or a join and the refreshes that follow it. */
module Refinements {
  import opened CStrings
  import opened Entries
  import opened Layouts
  import opened Operations
  import opened Topology
  import C = Chains
  import N = Networks

  predicate Before(order: seq<nat>, a: nat, b: nat)
    requires a < |order| && b < |order|
  {
    order[a] < order[b]
  }

  ghost predicate Increasing(order: seq<nat>) {
    forall a, b {:trigger Before(order, a, b)} :: 0 <= a < b < |order| ==> Before(order, a, b)
  }

  lemma Apart(order: seq<nat>, a: nat, b: nat)
    requires Increasing(order) && a < |order| && b < |order| && a != b
    ensures order[a] != order[b]
  {
    assert Before(order, if a < b then a else b, if a < b then b else a);
  }

  /** order lists live members, in whatever positions they are. */
  ghost predicate Live(net: N.Net, order: seq<nat>) {
    && order != [] && |net| <= MAX_NODES && Increasing(order)
    && forall k :: 0 <= k < |order| ==> order[k] < |net| && net[order[k]].alive
  }

  /** order lists all live members. */
  ghost predicate Complete(net: N.Net, order: seq<nat>) {
    forall i :: 0 <= i < |net| && net[i].alive ==> i in order
  }

  /** The k-th member sends to the next one. */
  ghost predicate Linked(net: N.Net, order: seq<nat>, k: nat)
    requires k < |order| && order[k] < |net|
  {
    k + 1 < |order| && net[order[k]].at == Position(N.PathOf(order[k + 1]), false)
  }

  /** Member i sends to nobody: it knows no successor, or one that is dead. */
  ghost predicate Severed(net: N.Net, i: nat)
    requires i < |net|
  {
    net[i].at.next == [] || exists j: nat :: DeadAt(net, j, net[i].at.next)
  }

  ghost predicate DeadAt(net: N.Net, j: nat, path: CString) {
    j < |net| && !net[j].alive && path == N.PathOf(j)
  }

  ghost predicate Wired(net: N.Net, order: seq<nat>, k: nat)
    requires k < |order| && order[k] < |net|
  {
    Linked(net, order, k) || Severed(net, order[k])
  }

  /** Each live member sends to the next live one or to nobody. */
  ghost predicate Serving(net: N.Net, order: seq<nat>) {
    Live(net, order) && forall k {:trigger Wired(net, order, k)} :: 0 <= k < |order| ==> Wired(net, order, k)
  }

  /** The chain the live members are. */
  function Abs(net: N.Net, order: seq<nat>): (c: C.Chain)
    requires order != [] && forall k :: 0 <= k < |order| ==> order[k] < |net|
    ensures C.WellFormed(c)
  {
    C.Chain(seq(|order|, k requires 0 <= k < |order| => net[order[k]].store),
            seq(|order| - 1, k requires 0 <= k < |order| - 1 => net[order[k + 1]].inbox),
            net[order[0]].inbox)
  }

  function CopiesOf(op: Op, second: bool): nat {
    if op.Put? || second then 2 else 1
  }

  /** How many copies of an operation the k-th member gets to the next one. */
  ghost function CopiesAt(net: N.Net, order: seq<nat>, k: nat, op: Op, second: bool): nat
    requires Live(net, order) && k < |order|
  {
    if Linked(net, order, k) then CopiesOf(op, second) else 0
  }

  // ---- what an update of one member does to the chain ----

  ghost predicate SameWiring(a: N.Net, b: N.Net) {
    |a| == |b| && forall i :: 0 <= i < |a| ==> a[i].at == b[i].at && a[i].alive == b[i].alive
  }

  lemma SeveredStays(net: N.Net, net': N.Net, i: nat)
    requires i < |net| <= |net'| && Severed(net, i) && net'[i].at == net[i].at
    requires forall j :: 0 <= j < |net| && !net[j].alive ==> !net'[j].alive
    ensures Severed(net', i)
  {
    if net[i].at.next != [] {
      var j: nat :| DeadAt(net, j, net[i].at.next);
      assert DeadAt(net', j, net'[i].at.next);
    }
  }

  lemma UpdateKeepsServing(net: N.Net, order: seq<nat>, net': N.Net)
    requires Serving(net, order) && SameWiring(net, net')
    ensures Serving(net', order)
    ensures forall k :: 0 <= k < |order| ==> (Linked(net', order, k) <==> Linked(net, order, k))
  {
    forall k | 0 <= k < |order| ensures Wired(net', order, k) {
      assert Wired(net, order, k);
      if Severed(net, order[k]) {
        SeveredStays(net, net', order[k]);
      }
    }
  }

  lemma StoreUpdate(net: N.Net, order: seq<nat>, k: nat, s: Store)
    requires Live(net, order) && k < |order|
    ensures var net', c := net[order[k] := net[order[k]].(store := s)], Abs(net, order);
            SameWiring(net, net') && Live(net', order) && Abs(net', order) == c.(replicas := c.replicas[k := s])
  {
    var net', c := net[order[k] := net[order[k]].(store := s)], Abs(net, order);
    forall x | 0 <= x < |order| && x != k ensures Abs(net', order).replicas[x] == c.replicas[x] {
      Apart(order, x, k);
    }
    assert Abs(net', order).replicas == c.replicas[k := s];
    assert Abs(net', order).links == c.links;
  }

  lemma InboxUpdate(net: N.Net, order: seq<nat>, k: nat, q: seq<Op>)
    requires Live(net, order) && k < |order|
    ensures var net', c := net[order[k] := net[order[k]].(inbox := q)], Abs(net, order);
            SameWiring(net, net') && Live(net', order)
            && Abs(net', order) == if k == 0 then c.(leftover := q) else c.(links := c.links[k - 1 := q])
  {
    var net', c := net[order[k] := net[order[k]].(inbox := q)], Abs(net, order);
    forall x | 0 <= x < |order| - 1 && x + 1 != k ensures Abs(net', order).links[x] == c.links[x] {
      Apart(order, x + 1, k);
    }
    assert Abs(net', order).replicas == c.replicas;
    assert Abs(net', order).links == if k == 0 then c.links else c.links[k - 1 := q];
    if k > 0 { Apart(order, 0, k); }
  }

  // ---- handling an operation ----

  function Stored(net: N.Net, i: nat, op: Op): N.Net
    requires i < |net|
  {
    net[i := net[i].(store := Apply(net[i].store, op))]
  }

  function Given(net: N.Net, i: nat, ops: seq<Op>): N.Net
    requires i < |net|
  {
    net[i := net[i].(inbox := net[i].inbox + ops)]
  }

  /** What a severed member sends reaches nobody. */
  lemma SendsToNobody(net: N.Net, i: nat, ops: seq<Op>)
    requires |net| <= MAX_NODES && i < |net| && Severed(net, i)
    ensures N.Send(net, net[i].at.next, ops) == net
  {
    if net[i].at.next != [] {
      var j: nat :| DeadAt(net, j, net[i].at.next);
      N.TargetOfPath(net, j);
    }
  }

  lemma SendsToNext(net: N.Net, order: seq<nat>, k: nat, ops: seq<Op>)
    requires Live(net, order) && k < |order| && Linked(net, order, k)
    ensures N.Send(net, net[order[k]].at.next, ops) == Given(net, order[k + 1], ops)
  {
    N.TargetOfPath(net, order[k + 1]);
    assert N.PathOf(order[k + 1]) != [];
  }

  /** The k-th member stores the operation and hands its copies to the next one, if it knows it. */
  lemma ProcessUnfolds(net: N.Net, order: seq<nat>, k: nat, op: Op, second: bool)
    requires Serving(net, order) && k < |order|
    ensures var i := order[k];
            N.Process(net, i, op, second) ==
            if Linked(net, order, k)
            then Given(Stored(net, i, op), order[k + 1], Forwarded(net[i].store, op, CopiesOf(op, second)))
            else Stored(net, i, op)
  {
    var i, m := order[k], net[order[k]];
    var ops := Forwarded(m.store, op, N.Sends(m.at, op, second));
    StoreUpdate(net, order, k, Apply(m.store, op));
    UpdateKeepsServing(net, order, Stored(net, i, op));
    assert Wired(net, order, k);
    if Linked(net, order, k) {
      SendsToNext(Stored(net, i, op), order, k, ops);
      assert m.at.next != [] && N.Sends(m.at, op, second) == CopiesOf(op, second);
    } else {
      SeveredStays(net, Stored(net, i, op), i);
      SendsToNobody(Stored(net, i, op), i, ops);
    }
  }

  lemma GivenRefines(net: N.Net, order: seq<nat>, k: nat, ops: seq<Op>)
    requires Serving(net, order) && k + 1 < |order|
    ensures var net', c := Given(net, order[k + 1], ops), Abs(net, order);
            Serving(net', order) && SameWiring(net, net')
            && Abs(net', order) == c.(links := c.links[k := c.links[k] + ops])
  {
    InboxUpdate(net, order, k + 1, net[order[k + 1]].inbox + ops);
    UpdateKeepsServing(net, order, Given(net, order[k + 1], ops));
  }

  lemma StoredRefines(net: N.Net, order: seq<nat>, k: nat, op: Op)
    requires Serving(net, order) && k < |order|
    ensures var net', c := Stored(net, order[k], op), Abs(net, order);
            Serving(net', order) && SameWiring(net, net')
            && Abs(net', order) == c.(replicas := c.replicas[k := Apply(c.replicas[k], op)])
  {
    StoreUpdate(net, order, k, Apply(net[order[k]].store, op));
    UpdateKeepsServing(net, order, Stored(net, order[k], op));
  }

  lemma SilentReceive(c: C.Chain, k: nat, op: Op)
    requires C.WellFormed(c) && k < |c.replicas|
    ensures C.Receive(c, k, op, 0) == c.(replicas := c.replicas[k := Apply(c.replicas[k], op)])
  {
    if k < |c.links| {
      assert Forwarded(c.replicas[k], op, 0) == [] && c.links[k] + [] == c.links[k];
    }
  }

  lemma ProcessRefines(net: N.Net, order: seq<nat>, k: nat, op: Op, second: bool)
    requires Serving(net, order) && k < |order|
    ensures var net' := N.Process(net, order[k], op, second);
            Serving(net', order) && SameWiring(net, net')
            && Abs(net', order) == C.Receive(Abs(net, order), k, op, CopiesAt(net, order, k, op, second))
  {
    ProcessUnfolds(net, order, k, op, second);
    StoredRefines(net, order, k, op);
    if Linked(net, order, k) {
      GivenRefines(Stored(net, order[k], op), order, k, Forwarded(net[order[k]].store, op, CopiesOf(op, second)));
    } else {
      SilentReceive(Abs(net, order), k, op);
    }
  }

  /** A write submitted to the k-th member is the chain's write at replica k. */
  lemma SubmitRefines(net: N.Net, order: seq<nat>, k: nat, op: Op, second: bool)
    requires Serving(net, order) && k < |order|
    ensures var net' := N.Next(net, N.Submit(order[k], op, second));
            && Serving(net', order) && SameWiring(net, net')
            && Abs(net', order) == C.Next(Abs(net, order), C.Write(k, op, CopiesAt(net, order, k, op, second)))
  {
    ProcessRefines(net, order, k, op, second);
  }

  /** The member without the message it is going to handle. */
  function Emptied(net: N.Net, i: nat, j: nat): N.Net
    requires i < |net| && j < |net[i].inbox|
  {
    net[i := net[i].(inbox := C.Without(net[i].inbox, j))]
  }

  lemma EmptiedRefines(net: N.Net, order: seq<nat>, k: nat, j: nat)
    requires Serving(net, order) && k < |order| && j < |net[order[k]].inbox|
    ensures var net', c := Emptied(net, order[k], j), Abs(net, order);
            && Serving(net', order) && SameWiring(net, net')
            && (k == 0 ==> Abs(net', order) == c.(leftover := C.Without(c.leftover, j)))
            && (k > 0 ==> Abs(net', order) == c.(links := c.links[k - 1 := C.Without(c.links[k - 1], j)]))
  {
    InboxUpdate(net, order, k, C.Without(net[order[k]].inbox, j));
    UpdateKeepsServing(net, order, Emptied(net, order[k], j));
  }

  /** Handling a message at a later member is the chain's delivery on the link before it. */
  lemma HandleRefines(net: N.Net, order: seq<nat>, k: nat, j: nat, second: bool)
    requires Serving(net, order) && 0 < k < |order| && j < |net[order[k]].inbox|
    ensures var net', c := N.Next(net, N.Handle(order[k], j, second)), Abs(net, order);
            && Serving(net', order) && SameWiring(net, net') && c.links[k - 1] == net[order[k]].inbox
            && Abs(net', order) ==
               C.Take(c, k - 1, j, CopiesAt(net, order, k, net[order[k]].inbox[j], second))
  {
    var op := net[order[k]].inbox[j];
    EmptiedRefines(net, order, k, j);
    UpdateKeepsServing(net, order, Emptied(net, order[k], j));
    ProcessRefines(Emptied(net, order[k], j), order, k, op, second);
  }

  /** What a lost head had sent to the present one is handled as the chain's leftover. */
  lemma HandleAtHeadRefines(net: N.Net, order: seq<nat>, j: nat, second: bool)
    requires Serving(net, order) && j < |net[order[0]].inbox|
    ensures var net', c := N.Next(net, N.Handle(order[0], j, second)), Abs(net, order);
            && Serving(net', order) && SameWiring(net, net') && c.leftover == net[order[0]].inbox
            && Abs(net', order) == C.TakeLeftover(c, j, CopiesAt(net, order, 0, net[order[0]].inbox[j], second))
  {
    var op := net[order[0]].inbox[j];
    EmptiedRefines(net, order, 0, j);
    UpdateKeepsServing(net, order, Emptied(net, order[0], j));
    ProcessRefines(Emptied(net, order[0], j), order, 0, op, second);
  }

  // ---- refreshing ----

  function Names(order: seq<nat>): seq<CString> {
    seq(|order|, k requires 0 <= k < |order| => NodeName(order[k]))
  }

  lemma NamesAreSorted(order: seq<nat>)
    requires Increasing(order) && forall k :: 0 <= k < |order| ==> order[k] < MAX_NODES
    ensures Ascending(Names(order)) && Distinct(Names(order))
  {
    forall a, b | 0 <= a < b < |order|
      ensures !Less(Names(order)[b], Names(order)[a]) && Names(order)[a] != Names(order)[b]
    {
      assert Before(order, a, b);
      NodeNameOrder(order[b], order[a]);
    }
  }

  /** A list that was current at some earlier moment, or is now: of the servers that are alive now it
      has those created before some time. */
  ghost predicate OnceCurrent(net: N.Net, order: seq<nat>, listed: seq<nat>) {
    && Increasing(listed) && (forall x :: 0 <= x < |listed| ==> listed[x] < |net|)
    && forall x, y :: 0 <= y < x < |order| && order[x] in listed ==> order[y] in listed
  }

  /** A server finds in such a list the next live server, a dead one, or none. */
  lemma NextListed(net: N.Net, order: seq<nat>, listed: seq<nat>, k: nat, p: nat)
    requires Live(net, order) && Complete(net, order) && OnceCurrent(net, order, listed)
    requires k < |order| && p + 1 < |listed| && listed[p] == order[k] && net[listed[p + 1]].alive
    ensures k + 1 < |order| && listed[p + 1] == order[k + 1]
  {
    var m := listed[p + 1];
    var y :| 0 <= y < |order| && order[y] == m;
    assert Before(listed, p, p + 1);
    assert y < k ==> Before(order, y, k);
    assert y > k;
    assert order[k + 1] in listed;
    var q :| 0 <= q < |listed| && listed[q] == order[k + 1];
    assert Before(order, k, k + 1);
    assert q < p ==> Before(listed, q, p);
    assert q > p + 1 ==> Before(listed, p + 1, q);
    assert y > k + 1 ==> Before(order, k + 1, y);
  }

  /** What a refresh on such a list makes of a server: linked to the next live one, or severed; a
      server the list does not have keeps its successor. */
  lemma RefreshWires(net: N.Net, order: seq<nat>, k: nat, listed: seq<nat>, children: seq<CString>)
    requires Serving(net, order) && Complete(net, order) && OnceCurrent(net, order, listed)
    requires k < |order| && children != [] && multiset(children) == multiset(Names(listed))
    ensures var net' := N.Next(net, N.Refresh(order[k], children)); |net'| == |net| && Wired(net', order, k)
  {
    var i, net' := order[k], N.Next(net, N.Refresh(order[k], children));
    NamesAreSorted(listed);
    assert Wired(net, order, k);
    if i in listed {
      var p: nat :| p < |listed| && listed[p] == i;
      WatchSorted(net[i].at, Names(listed), p, children);
      if p + 1 < |listed| {
        var m := listed[p + 1];
        assert net'[i].at == Position(N.PathOf(m), false);
        if net[m].alive {
          NextListed(net, order, listed, k, p);
        } else {
          assert DeadAt(net', m, net'[i].at.next);
        }
      }
    } else {
      AbsentName(listed, i, children, |net|);
      WatchWithoutMe(net[i].at, NodeName(i), children);
      if Severed(net, i) && net[i].at.next != [] {
        var j: nat :| DeadAt(net, j, net[i].at.next);
        assert DeadAt(net', j, net'[i].at.next);
      }
    }
  }

  lemma AbsentName(listed: seq<nat>, i: nat, children: seq<CString>, n: nat)
    requires i !in listed && i < n <= MAX_NODES && multiset(children) == multiset(Names(listed))
    requires forall x :: 0 <= x < |listed| ==> listed[x] < n
    ensures NodeName(i) !in children
  {
    if NodeName(i) in children {
      assert NodeName(i) in multiset(Names(listed));
      var x :| 0 <= x < |listed| && Names(listed)[x] == NodeName(i);
      NodeNameOrder(listed[x], i);
    }
  }

  /** A refresh on a list that was once current leaves the chain as it is. */
  lemma RefreshRefines(net: N.Net, order: seq<nat>, k: nat, listed: seq<nat>, children: seq<CString>)
    requires Serving(net, order) && Complete(net, order) && OnceCurrent(net, order, listed)
    requires k < |order| && children != [] && multiset(children) == multiset(Names(listed))
    ensures var net' := N.Next(net, N.Refresh(order[k], children));
            Serving(net', order) && Complete(net', order) && Abs(net', order) == Abs(net, order)
  {
    var i, net' := order[k], N.Next(net, N.Refresh(order[k], children));
    RefreshWires(net, order, k, listed, children);
    forall x | 0 <= x < |order| ensures Wired(net', order, x) {
      if x != k {
        Apart(order, x, k);
        assert Wired(net, order, x);
        if Severed(net, order[x]) {
          SeveredStays(net, net', order[x]);
        }
      }
    }
    assert Abs(net', order).replicas == Abs(net, order).replicas;
    assert Abs(net', order).links == Abs(net, order).links;
  }

  /** On the current list a server gets linked to the next one; only the last has none, and is
      tail. */
  lemma RefreshPlaces(net: N.Net, order: seq<nat>, k: nat, children: seq<CString>)
    requires Live(net, order) && k < |order| && multiset(children) == multiset(Names(order))
    ensures children != []
    ensures N.Next(net, N.Refresh(order[k], children))[order[k]].at ==
            Position(if k + 1 < |order| then N.PathOf(order[k + 1]) else [], k == |order| - 1)
  {
    var s := Names(order);
    NamesAreSorted(order);
    WatchSorted(net[order[k]].at, s, k, children);
    assert k + 1 < |order| ==> CHAIN_PREFIX + s[k + 1] == N.PathOf(order[k + 1]);
  }

  /** From the k-th on, they refresh one after the other. */
  function RefreshFrom(order: seq<nat>, children: seq<CString>, k: nat): seq<N.Event>
    requires k <= |order|
    decreases |order| - k
  {
    if k == |order| then [] else [N.Refresh(order[k], children)] + RefreshFrom(order, children, k + 1)
  }

  /** The first k servers are linked to their successors. */
  ghost predicate LinkedUpTo(net: N.Net, order: seq<nat>, k: nat) {
    && Live(net, order) && k <= |order|
    && forall x {:trigger Linked(net, order, x)} :: 0 <= x < k && x + 1 < |order| ==> Linked(net, order, x)
  }

  lemma RefreshLinksOne(net: N.Net, order: seq<nat>, children: seq<CString>, k: nat)
    requires LinkedUpTo(net, order, k) && k < |order| && multiset(children) == multiset(Names(order))
    ensures N.Enabled(net, N.Refresh(order[k], children))
    ensures LinkedUpTo(N.Next(net, N.Refresh(order[k], children)), order, k + 1)
  {
    RefreshPlaces(net, order, k, children);
    var net' := N.Next(net, N.Refresh(order[k], children));
    forall x | 0 <= x < k + 1 && x + 1 < |order| ensures Linked(net', order, x) {
      if x < k {
        assert Linked(net, order, x);
        Apart(order, x, k);
      }
    }
  }

  /** Wherever the live servers believe themselves to be: once each has refreshed on the current list
      all are linked. */
  lemma {:induction false} RefreshingLinksAll(net: N.Net, order: seq<nat>, children: seq<CString>, k: nat)
    requires LinkedUpTo(net, order, k) && multiset(children) == multiset(Names(order))
    ensures N.CanRun(net, RefreshFrom(order, children, k))
    ensures LinkedUpTo(N.Exec(net, RefreshFrom(order, children, k)), order, |order|)
    decreases |order| - k
  {
    if k < |order| {
      RefreshLinksOne(net, order, children, k);
      RefreshingLinksAll(N.Next(net, N.Refresh(order[k], children)), order, children, k + 1);
      assert RefreshFrom(order, children, k)[1..] == RefreshFrom(order, children, k + 1);
    }
  }

  // ---- losing and gaining a member ----

  /** The loss of replica k. */
  function Loss(c: C.Chain, k: nat): (e: C.Event)
    requires C.WellFormed(c) && |c.replicas| > 1 && k < |c.replicas|
    ensures C.Enabled(c, e)
  {
    if k == 0 then C.LoseHead else if k == |c.replicas| - 1 then C.LoseTail else C.LoseMiddle(k)
  }

  /** Where the x-th of the remaining servers was before replica k went. */
  function Old(x: nat, k: nat): nat {
    if x < k then x else x + 1
  }

  lemma LossForm(c: C.Chain, k: nat)
    requires C.WellFormed(c) && |c.replicas| > 1 && k < |c.replicas|
    ensures C.Next(c, Loss(c, k)) ==
            C.Chain(C.Without(c.replicas, k), C.Without(c.links, if k == 0 then 0 else k - 1),
                    if k == 0 then c.links[0] else c.leftover)
  {
    var n := |c.replicas|;
    assert C.Without(c.replicas, 0) == c.replicas[1..] && C.Without(c.links, 0) == c.links[1..];
    assert C.Without(c.replicas, n - 1) == c.replicas[..n - 1] && C.Without(c.links, n - 2) == c.links[..n - 2];
  }

  lemma WithoutAt<T>(s: seq<T>, k: nat, x: nat)
    requires k < |s| && x < |s| - 1
    ensures C.Without(s, k)[x] == s[Old(x, k)]
  {
  }

  function Crashed(net: N.Net, i: nat): N.Net
    requires i < |net|
  {
    net[i := net[i].(alive := false, inbox := [])]
  }

  lemma OthersUntouched(net: N.Net, order: seq<nat>, k: nat, x: nat)
    requires Live(net, order) && |order| > 1 && k < |order| && x < |order| - 1
    ensures C.Without(order, k)[x] == order[Old(x, k)]
    ensures Crashed(net, order[k])[order[Old(x, k)]] == net[order[Old(x, k)]]
  {
    Apart(order, Old(x, k), k);
  }

  lemma RestIsLive(net: N.Net, order: seq<nat>, k: nat)
    requires Live(net, order) && |order| > 1 && k < |order|
    ensures Live(Crashed(net, order[k]), C.Without(order, k))
    ensures Complete(net, order) ==> Complete(Crashed(net, order[k]), C.Without(order, k))
  {
    var rest, net' := C.Without(order, k), Crashed(net, order[k]);
    forall a, b | 0 <= a < b < |rest| ensures Before(rest, a, b) {
      WithoutAt(order, k, a);
      WithoutAt(order, k, b);
      assert Before(order, Old(a, k), Old(b, k));
    }
    forall x | 0 <= x < |rest| ensures rest[x] < |net'| && net'[rest[x]].alive {
      OthersUntouched(net, order, k, x);
    }
    if Complete(net, order) {
      forall i | 0 <= i < |net'| && net'[i].alive ensures i in rest {
        var y :| 0 <= y < |order| && order[y] == i;
        assert y != k;
        WithoutAt(order, k, if y < k then y else y - 1);
      }
    }
  }

  /** Who was linked to the crashed server is severed; everyone else stays as it was. */
  lemma CrashWires(net: N.Net, order: seq<nat>, k: nat, x: nat)
    requires Serving(net, order) && |order| > 1 && k < |order| && x < |order| - 1
    requires Live(Crashed(net, order[k]), C.Without(order, k))
    ensures Wired(Crashed(net, order[k]), C.Without(order, k), x)
    ensures Linked(Crashed(net, order[k]), C.Without(order, k), x) <==>
            x + 1 < |order| - 1 && x + 1 != k && Linked(net, order, Old(x, k))
  {
    var rest, net', y := C.Without(order, k), Crashed(net, order[k]), Old(x, k);
    OthersUntouched(net, order, k, x);
    assert Wired(net, order, y);
    if x + 1 < |rest| {
      OthersUntouched(net, order, k, x + 1);
    }
    if Severed(net, order[y]) {
      SeveredStays(net, net', order[y]);
      SeveredIsNotLinked(net', rest, x);
      SeveredIsNotLinked(net, order, y);
    } else if y + 1 == k {
      assert DeadAt(net', order[k], net'[rest[x]].at.next);
      SeveredIsNotLinked(net', rest, x);
    }
  }

  lemma SeveredIsNotLinked(net: N.Net, order: seq<nat>, k: nat)
    requires Live(net, order) && k < |order| && Severed(net, order[k])
    ensures !Linked(net, order, k)
  {
    if Linked(net, order, k) {
      var j: nat :| DeadAt(net, j, net[order[k]].at.next);
      N.PathsDiffer(j, order[k + 1]);
    }
  }

  /** A crash is the loss of that replica of the chain, whether or not anyone has noticed: what it
      had sent is inherited, what had been sent to it is gone. */
  lemma CrashRefines(net: N.Net, order: seq<nat>, k: nat)
    requires Serving(net, order) && |order| > 1 && k < |order|
    ensures var net', rest := N.Next(net, N.Crash(order[k])), C.Without(order, k);
            && Serving(net', rest) && (Complete(net, order) ==> Complete(net', rest))
            && Abs(net', rest) == C.Next(Abs(net, order), Loss(Abs(net, order), k))
  {
    var net', rest := Crashed(net, order[k]), C.Without(order, k);
    RestIsLive(net, order, k);
    forall x | 0 <= x < |rest| ensures Wired(net', rest, x) {
      CrashWires(net, order, k, x);
    }
    LossForm(Abs(net, order), k);
    CrashLeavesReplicas(net, order, k);
    CrashLeavesLinks(net, order, k);
    OthersUntouched(net, order, k, 0);
  }

  lemma CrashLeavesReplicas(net: N.Net, order: seq<nat>, k: nat)
    requires Live(net, order) && |order| > 1 && k < |order|
    requires Live(Crashed(net, order[k]), C.Without(order, k))
    ensures Abs(Crashed(net, order[k]), C.Without(order, k)).replicas == C.Without(Abs(net, order).replicas, k)
  {
    var a, rs := Abs(Crashed(net, order[k]), C.Without(order, k)).replicas, Abs(net, order).replicas;
    forall x | 0 <= x < |a| ensures a[x] == C.Without(rs, k)[x] {
      OthersUntouched(net, order, k, x);
      WithoutAt(rs, k, x);
    }
  }

  lemma CrashLeavesLinks(net: N.Net, order: seq<nat>, k: nat)
    requires Live(net, order) && |order| > 1 && k < |order|
    requires Live(Crashed(net, order[k]), C.Without(order, k))
    ensures Abs(Crashed(net, order[k]), C.Without(order, k)).links ==
            C.Without(Abs(net, order).links, if k == 0 then 0 else k - 1)
  {
    var a, ls := Abs(Crashed(net, order[k]), C.Without(order, k)).links, Abs(net, order).links;
    var l := if k == 0 then 0 else k - 1;
    forall x | 0 <= x < |a| ensures a[x] == C.Without(ls, l)[x] {
      OthersUntouched(net, order, k, x + 1);
      WithoutAt(ls, l, x);
    }
  }

  lemma JoinedIsLive(net: N.Net, order: seq<nat>, store: Store)
    requires Live(net, order) && |net| < MAX_NODES
    ensures var net' := N.Next(net, N.Create(store));
            Live(net', order + [|net|]) && (Complete(net, order) ==> Complete(net', order + [|net|]))
  {
    var more := order + [|net|];
    forall a, b | 0 <= a < b < |more| ensures Before(more, a, b) {
      if b < |order| {
        assert Before(order, a, b);
      }
    }
  }

  /** A server that joins, whatever it has been loaded with, is the end of the chain, whether or not
      anyone has noticed. */
  lemma JoinRefines(net: N.Net, order: seq<nat>, store: Store)
    requires Serving(net, order) && |net| < MAX_NODES
    ensures var net', more := N.Next(net, N.Create(store)), order + [|net|];
            && Serving(net', more) && (Complete(net, order) ==> Complete(net', more))
            && Abs(net', more) == C.Next(Abs(net, order), C.Join(store))
  {
    var net', more := N.Next(net, N.Create(store)), order + [|net|];
    JoinedIsLive(net, order, store);
    forall x | 0 <= x < |more| ensures Wired(net', more, x) {
      if x < |order| {
        assert Wired(net, order, x);
        if Severed(net, order[x]) {
          SeveredStays(net, net', order[x]);
        }
      }
    }
    var a, b := Abs(net', more), C.Next(Abs(net, order), C.Join(store));
    assert a.replicas == b.replicas;
    assert a.links == b.links;
  }
}
