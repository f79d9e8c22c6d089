/** What one DEL does to a chain with nothing under way: a server that removes something forwards the
    DEL and then dies of it, so that it goes on to the next one. */
module Cascades {
  import opened CStrings
  import opened Hashing
  import opened Operations
  import opened Messages
  import opened Refinements
  import opened Services
  import C = Chains
  import N = Networks

  ghost predicate Stores(hosts: seq<Host>, order: seq<nat>, x: nat, k: CString)
    requires x < |order| && order[x] < |hosts|
  {
    k in hosts[order[x]].state.store
  }

  ghost predicate EmptySlot(hosts: seq<Host>, order: seq<nat>, x: nat, k: CString)
    requires Sane(hosts) && x < |order| && order[x] < |hosts|
  {
    var l := hosts[order[x]].state.layout;
    l[Slot(k, |l|)] == []
  }

  /** The DEL gets past the x-th server: it removes something there and the next one is known. */
  ghost predicate Passes(hosts: seq<Host>, order: seq<nat>, x: nat, k: CString)
    requires x < |order| && order[x] < |hosts|
  {
    Stores(hosts, order, x, k) && Linked(NetOf(hosts), order, x)
  }

  ghost predicate Within(hosts: seq<Host>, order: seq<nat>) {
    forall x :: 0 <= x < |order| ==> order[x] < |hosts|
  }

  /** The DEL gets as far as the x-th server. */
  ghost predicate Reaches(hosts: seq<Host>, order: seq<nat>, x: nat, k: CString)
    requires Within(hosts, order) && x <= |order|
  {
    forall y {:trigger Passes(hosts, order, y, k)} :: 0 <= y < x ==> Passes(hosts, order, y, k)
  }

  /** The DEL reaches the x-th server, and that has the key or an empty slot for it. */
  ghost predicate DiesOf(hosts: seq<Host>, order: seq<nat>, x: nat, k: CString)
    requires Sane(hosts) && Within(hosts, order) && x < |order|
  {
    Reaches(hosts, order, x, k) && (Stores(hosts, order, x, k) || EmptySlot(hosts, order, x, k))
  }

  // ---- states of the cascade ----

  /** The servers of a chain, before anything happens. */
  ghost predicate Chained(hosts: seq<Host>, order: seq<nat>) {
    Sane(hosts) && Within(hosts, order) && Serving(NetOf(hosts), order)
  }

  ghost predicate NothingPending(hosts: seq<Host>, order: seq<nat>)
    requires Within(hosts, order)
  {
    forall x :: 0 <= x < |order| ==> hosts[order[x]].inbox == []
  }

  /** The servers before the x-th are dead or not as they should be, those from there on are as they
      were, and the rest of the world too. */
  ghost predicate Progress(orig: seq<Host>, now: seq<Host>, order: seq<nat>, x: nat, k: CString)
    requires Chained(orig, order) && x <= |order|
  {
    && |now| == |orig| && Sane(now)
    && (forall y {:trigger order[y]} :: 0 <= y < x ==> (!now[order[y]].alive <==> DiesOf(orig, order, y, k)))
    && (forall y {:trigger order[y]} :: x <= y < |order| ==>
          now[order[y]].alive && now[order[y]].state == orig[order[y]].state)
    && (forall i :: 0 <= i < |now| && i !in order ==> now[i] == orig[i])
  }

  /** The DEL has reached the x-th server, which has not handled it yet. */
  ghost predicate Waiting(orig: seq<Host>, now: seq<Host>, order: seq<nat>, x: nat, k: CString)
    requires Chained(orig, order) && x < |order|
  {
    && Progress(orig, now, order, x, k) && Reaches(orig, order, x, k)
    && now[order[x]].inbox == [Del(k)]
    && forall y {:trigger order[y]} :: 0 <= y < |order| && y != x ==> now[order[y]].inbox == []
  }

  /** The DEL has gone as far as it gets. */
  ghost predicate Over(orig: seq<Host>, now: seq<Host>, order: seq<nat>, k: CString)
    requires Chained(orig, order)
  {
    && |now| == |orig| && Sane(now) && NothingPending(now, order)
    && forall x {:trigger order[x]} :: 0 <= x < |order| ==> (!now[order[x]].alive <==> DiesOf(orig, order, x, k))
  }

  // ---- one server serves the DEL ----

  /** What handing over the copies of an effective DEL does: the next server gets one, if it is
      known; otherwise nobody gets any. */
  lemma {:induction false} HandsOn(orig: seq<Host>, now: seq<Host>, order: seq<nat>, x: nat, k: CString)
    requires Chained(orig, order) && x < |order| && |now| == |orig|
    requires now[order[x]].state.at == orig[order[x]].state.at
    requires forall y {:trigger order[y]} :: x < y < |order| ==> now[order[y]].alive
    requires forall i :: 0 <= i < |now| && i !in order ==> now[i].alive == orig[i].alive
    ensures var at := orig[order[x]].state.at;
            Hand(now, SentCopies(at.next, Del(k), N.Sends(at, Del(k), false))) ==
            if Linked(NetOf(orig), order, x)
            then now[order[x + 1] := now[order[x + 1]].(inbox := now[order[x + 1]].inbox + [Del(k)])]
            else now
  {
    var at, net := orig[order[x]].state.at, NetOf(orig);
    var n := N.Sends(at, Del(k), false);
    assert n <= 1;
    assert NetOf(now)[order[x]].at == at && |NetOf(now)| == |net|;
    assert Wired(net, order, x);
    if Linked(net, order, x) {
      assert at.next == N.PathOf(order[x + 1]) != [] && n == 1;
      HandOneCopy(now, at.next, Del(k));
      N.TargetOfPath(NetOf(now), order[x + 1]);
    } else if n == 0 {
      assert SentCopies(at.next, Del(k), n) == [];
    } else {
      HandOneCopy(now, at.next, Del(k));
      var j: nat :| DeadAt(net, j, at.next);
      DeadIsOutside(orig, order, j);
      N.TargetOfPath(NetOf(now), j);
    }
  }

  lemma HandOneCopy(hosts: seq<Host>, path: CString, op: Op)
    ensures Hand(hosts, SentCopies(path, op, 1)) == HandOne(hosts, Sent(path, op))
  {
    assert SentCopies(path, op, 1) == [Sent(path, op)] && [Sent(path, op)][1..] == [];
  }

  lemma DeadIsOutside(hosts: seq<Host>, order: seq<nat>, j: nat)
    requires Chained(hosts, order) && j < |hosts| && !hosts[j].alive
    ensures j !in order
  {
    forall x | 0 <= x < |order| ensures order[x] != j {
      assert NetOf(hosts)[order[x]].alive;
    }
  }

  /** The x-th server after the DEL, and what it has handed over. */
  lemma DelAnswered(orig: seq<Host>, now: seq<Host>, order: seq<nat>, x: nat, k: CString)
    requires Chained(orig, order) && x < |order| && Progress(orig, now, order, x, k) && NothingPending(now, order)
    ensures var after := Answered(now, order[x], Del(k));
            && (after[order[x]].alive <==> !Stores(orig, order, x, k) && !EmptySlot(orig, order, x, k))
            && after[order[x]].inbox == []
            && (forall i :: 0 <= i < |now| && i != order[x] ==>
                 after[i] == if Passes(orig, order, x, k) && i == order[x + 1]
                             then now[i].(inbox := [Del(k)]) else now[i])
  {
    var i := order[x];
    var h := now[i];
    assert h.state == orig[i].state;
    var r := ServedBy(now, i, Del(k));
    FatalIff(now, i, Del(k));
    ServedSends(now, i, Del(k));
    var hosts1 := now[i := h.(state := r.state.(sent := []))];
    if Stores(orig, order, x, k) {
      HandsOn(orig, hosts1, order, x, k);
      if Linked(NetOf(orig), order, x) {
        Apart(order, x, x + 1);
        assert now[order[x + 1]].inbox + [Del(k)] == [Del(k)];
      }
    } else {
      assert SentCopies(h.state.at.next, Del(k), 0) == [];
    }
  }

  lemma ReachesFurther(hosts: seq<Host>, order: seq<nat>, x: nat, k: CString)
    requires Within(hosts, order) && x < |order|
    ensures Reaches(hosts, order, x + 1, k) <==> Reaches(hosts, order, x, k) && Passes(hosts, order, x, k)
  {
  }

  lemma StopsAt(hosts: seq<Host>, order: seq<nat>, x: nat, y: nat, k: CString)
    requires Sane(hosts) && Within(hosts, order) && x < y < |order| && !Passes(hosts, order, x, k)
    ensures !DiesOf(hosts, order, y, k)
  {
  }

  lemma DelGoesOn(orig: seq<Host>, now: seq<Host>, order: seq<nat>, x: nat, k: CString)
    requires Chained(orig, order) && x < |order| && Progress(orig, now, order, x, k) && NothingPending(now, order)
    requires Reaches(orig, order, x, k) && Passes(orig, order, x, k)
    ensures x + 1 < |order| && Waiting(orig, Answered(now, order[x], Del(k)), order, x + 1, k)
  {
    DelAnswered(orig, now, order, x, k);
    AnsweredIsSane(now, order[x], Del(k));
    ReachesFurther(orig, order, x, k);
    forall y | 0 <= y < |order| && y != x ensures order[y] != order[x] {
      Apart(order, y, x);
    }
    forall y | 0 <= y < |order| && y != x + 1 ensures order[y] != order[x + 1] {
      Apart(order, y, x + 1);
    }
  }

  lemma DelIsOver(orig: seq<Host>, now: seq<Host>, order: seq<nat>, x: nat, k: CString)
    requires Chained(orig, order) && x < |order| && Progress(orig, now, order, x, k) && NothingPending(now, order)
    requires Reaches(orig, order, x, k) && !Passes(orig, order, x, k)
    ensures Over(orig, Answered(now, order[x], Del(k)), order, k)
  {
    var after := Answered(now, order[x], Del(k));
    DelAnswered(orig, now, order, x, k);
    AnsweredIsSane(now, order[x], Del(k));
    forall y | 0 <= y < |order|
      ensures after[order[y]].inbox == [] && (!after[order[y]].alive <==> DiesOf(orig, order, y, k))
    {
      if y != x {
        Apart(order, y, x);
        assert after[order[y]] == now[order[y]];
        if y > x {
          StopsAt(orig, order, x, y, k);
        }
      }
    }
  }

  /** Server x serves the DEL: either it goes on to the next one, or it is over. */
  lemma DelServed(orig: seq<Host>, now: seq<Host>, order: seq<nat>, x: nat, k: CString)
    requires Chained(orig, order) && x < |order| && Progress(orig, now, order, x, k) && NothingPending(now, order)
    requires Reaches(orig, order, x, k)
    ensures Sane(Answered(now, order[x], Del(k)))
    ensures Passes(orig, order, x, k) ==>
              x + 1 < |order| && Waiting(orig, Answered(now, order[x], Del(k)), order, x + 1, k)
    ensures !Passes(orig, order, x, k) ==> Over(orig, Answered(now, order[x], Del(k)), order, k)
  {
    AnsweredIsSane(now, order[x], Del(k));
    if Passes(orig, order, x, k) {
      DelGoesOn(orig, now, order, x, k);
    } else {
      DelIsOver(orig, now, order, x, k);
    }
  }

  lemma AnsweredIsSane(hosts: seq<Host>, i: nat, op: Op)
    requires Sane(hosts) && i < |hosts|
    ensures Sane(Answered(hosts, i, op))
  {
    var r := ServedBy(hosts, i, op);
    ServeKeepsTable(hosts[i].state.(sent := []), RequestOf(op));
    HandKeepsStates(hosts[i := hosts[i].(state := r.state.(sent := []))], r.state.sent);
  }

  // ---- whole cascades ----

  /** Servers of the chain handle what they have been sent, in whatever order. */
  predicate PeersOf(order: seq<nat>, ws: seq<Work>) {
    forall j :: 0 <= j < |ws| ==> ws[j].Peer? && ws[j].who in order
  }

  lemma OnlyMessage(orig: seq<Host>, now: seq<Host>, order: seq<nat>, x: nat, k: CString, w: Work)
    requires Chained(orig, order) && x < |order| && Waiting(orig, now, order, x, k)
    requires w.Peer? && w.who in order && Enabled(now, w)
    ensures w.who == order[x] && OpOf(now, w) == Del(k)
    ensures Progress(orig, Picked(now, w), order, x, k) && NothingPending(Picked(now, w), order)
  {
    var y :| 0 <= y < |order| && order[y] == w.who;
    assert y == x;
    assert C.Without([Del(k)], 0) == [];
    forall z | 0 <= z < |order| && z != x ensures order[z] != order[x] {
      Apart(order, z, x);
    }
  }

  /** The DEL waits at the x-th server, or it is over. */
  ghost predicate WaitingOrOver(orig: seq<Host>, now: seq<Host>, order: seq<nat>, x: nat, k: CString)
    requires Chained(orig, order)
  {
    Over(orig, now, order, k) || (x < |order| && Waiting(orig, now, order, x, k))
  }

  lemma WaitingStep(orig: seq<Host>, now: seq<Host>, order: seq<nat>, x: nat, k: CString, w: Work)
    requires Chained(orig, order) && x < |order| && Waiting(orig, now, order, x, k)
    requires w.Peer? && w.who in order && Enabled(now, w)
    ensures Sane(Next(now, w)) && WaitingOrOver(orig, Next(now, w), order, x + 1, k)
  {
    OnlyMessage(orig, now, order, x, k, w);
    DelServed(orig, Picked(now, w), order, x, k);
  }

  lemma NothingLeft(orig: seq<Host>, now: seq<Host>, order: seq<nat>, k: CString, w: Work)
    requires Chained(orig, order) && Over(orig, now, order, k) && w.Peer? && w.who in order
    ensures !Enabled(now, w)
  {
    var y :| 0 <= y < |order| && order[y] == w.who;
  }

  /** This run of the chain's servers leads here, and nothing is pending then. */
  ghost predicate EndsAt(now: seq<Host>, order: seq<nat>, ws: seq<Work>, end: seq<Host>) {
    && Sane(now) && CanRun(now, ws) && PeersOf(order, ws) && Exec(now, ws) == end
    && Within(end, order) && NothingPending(end, order)
  }

  lemma EndsAtNext(now: seq<Host>, order: seq<nat>, ws: seq<Work>, end: seq<Host>)
    requires EndsAt(now, order, ws, end) && ws != []
    ensures Enabled(now, ws[0]) && ws[0].Peer? && ws[0].who in order && Sane(Next(now, ws[0]))
    ensures EndsAt(Next(now, ws[0]), order, ws[1..], end)
  {
  }

  lemma OverIsStill(orig: seq<Host>, now: seq<Host>, order: seq<nat>, k: CString, ws: seq<Work>, end: seq<Host>)
    requires Chained(orig, order) && Over(orig, now, order, k) && EndsAt(now, order, ws, end)
    ensures end == now
  {
    if ws != [] {
      EndsAtNext(now, order, ws, end);
      NothingLeft(orig, now, order, k, ws[0]);
    }
  }

  lemma {:induction false} CascadeEnds(orig: seq<Host>, now: seq<Host>, order: seq<nat>, x: nat, k: CString,
                                       ws: seq<Work>, end: seq<Host>)
    requires Chained(orig, order) && WaitingOrOver(orig, now, order, x, k) && EndsAt(now, order, ws, end)
    ensures Over(orig, end, order, k)
    decreases |ws|
  {
    if Over(orig, now, order, k) {
      OverIsStill(orig, now, order, k, ws, end);
    } else {
      WaitingIsNotEnd(orig, now, order, x, k, ws, end);
      EndsAtNext(now, order, ws, end);
      WaitingStep(orig, now, order, x, k, ws[0]);
      CascadeEnds(orig, Next(now, ws[0]), order, x + 1, k, ws[1..], end);
    }
  }

  lemma WaitingIsNotEnd(orig: seq<Host>, now: seq<Host>, order: seq<nat>, x: nat, k: CString,
                        ws: seq<Work>, end: seq<Host>)
    requires Chained(orig, order) && x < |order| && Waiting(orig, now, order, x, k) && EndsAt(now, order, ws, end)
    ensures ws != [] && Enabled(now, ws[0])
  {
    assert now[order[x]].inbox != [];
  }

  /** A client's DEL of k reaches the head of a chain with nothing under way, and the servers handle
      what they send each other until nothing is left: then a server is dead exactly if the DEL
      got to it, every server before it having had the key and known its successor, and it had the
      key itself or an empty slot for it. */
  lemma DelKillsIff(hosts: seq<Host>, order: seq<nat>, k: CString, ws: seq<Work>, end: seq<Host>, x: nat)
    requires Chained(hosts, order) && NothingPending(hosts, order) && x < |order|
    requires Enabled(hosts, Client(order[0], Del(k)))
    requires EndsAt(Next(hosts, Client(order[0], Del(k))), order, ws, end)
    ensures |end| == |hosts| && (!end[order[x]].alive <==> DiesOf(hosts, order, x, k))
  {
    FirstStep(hosts, order, k);
    CascadeEnds(hosts, Next(hosts, Client(order[0], Del(k))), order, 1, k, ws, end);
    assert order[x] < |end|;
  }

  lemma FirstStep(hosts: seq<Host>, order: seq<nat>, k: CString)
    requires Chained(hosts, order) && NothingPending(hosts, order)
    requires Enabled(hosts, Client(order[0], Del(k)))
    ensures var next := Next(hosts, Client(order[0], Del(k))); Sane(next) && WaitingOrOver(hosts, next, order, 1, k)
  {
    StartOfCascade(hosts, order, k);
    DelServed(hosts, hosts, order, 0, k);
  }

  lemma StartOfCascade(hosts: seq<Host>, order: seq<nat>, k: CString)
    requires Chained(hosts, order)
    ensures Progress(hosts, hosts, order, 0, k) && Reaches(hosts, order, 0, k)
  {
    forall y | 0 <= y < |order| ensures hosts[order[y]].alive {
      assert NetOf(hosts)[order[y]].alive;
    }
  }

  /** In particular, if every server knows its successor and has the key, nobody survives. */
  lemma OneDelKillsAll(hosts: seq<Host>, order: seq<nat>, k: CString, ws: seq<Work>, end: seq<Host>, x: nat)
    requires Chained(hosts, order) && NothingPending(hosts, order) && x < |order|
    requires LinkedUpTo(NetOf(hosts), order, |order|)
    requires forall y {:trigger Stores(hosts, order, y, k)} :: 0 <= y < |order| ==> Stores(hosts, order, y, k)
    requires Enabled(hosts, Client(order[0], Del(k)))
    requires EndsAt(Next(hosts, Client(order[0], Del(k))), order, ws, end)
    ensures |end| == |hosts| && !end[order[x]].alive
  {
    forall y | 0 <= y < x ensures Passes(hosts, order, y, k) {
      assert Stores(hosts, order, y, k) && Linked(NetOf(hosts), order, y);
    }
    assert Stores(hosts, order, x, k);
    DelKillsIff(hosts, order, k, ws, end, x);
  }

  // ---- the cascade can be run to its end ----

  ghost predicate CanEnd(now: seq<Host>, order: seq<nat>) {
    exists ws, end :: EndsAt(now, order, ws, end)
  }

  lemma OneMore(now: seq<Host>, order: seq<nat>, w: Work, ws: seq<Work>, end: seq<Host>)
    requires Sane(now) && Enabled(now, w) && w.Peer? && w.who in order
    requires Sane(Next(now, w)) && EndsAt(Next(now, w), order, ws, end)
    ensures EndsAt(now, order, [w] + ws, end)
  {
    var all := [w] + ws;
    assert all[0] == w && all[1..] == ws;
  }

  lemma NoMore(orig: seq<Host>, now: seq<Host>, order: seq<nat>, k: CString)
    requires Chained(orig, order) && Over(orig, now, order, k)
    ensures EndsAt(now, order, [], now)
  {
  }

  lemma {:induction false} CanEndFrom(orig: seq<Host>, now: seq<Host>, order: seq<nat>, x: nat, k: CString)
    requires Chained(orig, order) && x <= |order| && WaitingOrOver(orig, now, order, x, k)
    ensures CanEnd(now, order)
    decreases |order| - x
  {
    if Over(orig, now, order, k) {
      NoMore(orig, now, order, k);
    } else {
      var w := Peer(order[x], 0);
      WaitingStep(orig, now, order, x, k, w);
      CanEndFrom(orig, Next(now, w), order, x + 1, k);
      EndsOneLater(now, order, w);
    }
  }

  lemma EndsOneLater(now: seq<Host>, order: seq<nat>, w: Work)
    requires Sane(now) && Enabled(now, w) && w.Peer? && w.who in order && CanEnd(Next(now, w), order)
    ensures CanEnd(now, order)
  {
    var ws, end :| EndsAt(Next(now, w), order, ws, end);
    OneMore(now, order, w, ws, end);
  }

  /** After the client's DEL there is a schedule that leaves nothing pending. */
  lemma DelCanEnd(hosts: seq<Host>, order: seq<nat>, k: CString)
    requires Chained(hosts, order) && NothingPending(hosts, order) && Enabled(hosts, Client(order[0], Del(k)))
    ensures CanEnd(Next(hosts, Client(order[0], Del(k))), order)
  {
    FirstStep(hosts, order, k);
    CanEndFrom(hosts, Next(hosts, Client(order[0], Del(k))), order, 1, k);
  }
}
