/** From a crash or a join until the server in front of it has noticed, what that server takes is
    passed on to nobody. Meanwhile the chain is cut in two: a chain that ends with that server,
    and one whose head has the messages between them for leftovers. */
module Windows {
  import opened CStrings
  import opened Entries
  import opened Operations
  import opened Chains
  import opened HeadLosses

  function Upper(c: Chain, k: nat): (u: Chain)
    requires WellFormed(c) && k + 1 < |c.replicas|
    ensures WellFormed(u)
  {
    Chain(c.replicas[..k + 1], c.links[..k], c.leftover)
  }

  function Lower(c: Chain, k: nat): (l: Chain)
    requires WellFormed(c) && k + 1 < |c.replicas|
    ensures WellFormed(l)
  {
    Chain(c.replicas[k + 1..], c.links[k + 1..], c.links[k])
  }

  /** A chain is on course exactly if its two parts are and the lower one is going to hold what the
      upper one ends with. */
  lemma CutIff(c: Chain, k: nat)
    requires WellFormed(c) && k + 1 < |c.replicas|
    ensures LinksHold(c) <==>
            LinksHold(Upper(c, k)) && LinksHold(Lower(c, k)) && Intent(Lower(c, k)) == Tail(Upper(c, k))
  {
    var u, l := Upper(c, k), Lower(c, k);
    forall i | 0 <= i < |u.links| ensures LinkHolds(u, i) <==> LinkHolds(c, i) {
    }
    forall i | 0 <= i < |l.links| ensures LinkHolds(l, i) <==> LinkHolds(c, k + 1 + i) {
    }
    assert LinkHolds(c, k) <==> Intent(l) == Tail(u);
    if LinksHold(u) && LinksHold(l) && Intent(l) == Tail(u) {
      forall i | 0 <= i < |c.links| ensures LinkHolds(c, i) {
        if i < k {
          assert LinkHolds(u, i);
        } else if i > k {
          assert LinkHolds(l, i - k - 1);
        }
      }
    }
    if LinksHold(c) {
      forall i | 0 <= i < |l.links| ensures LinkHolds(l, i) { assert LinkHolds(c, k + 1 + i); }
      forall i | 0 <= i < |u.links| ensures LinkHolds(u, i) { assert LinkHolds(c, i); }
    }
  }

  // ---- what happens on either side ----

  /** A write or a message handled anywhere; server k does not know its successor. */
  predicate InWindow(k: nat, e: Event) {
    match e
    case Write(i, _, copies) => i == k ==> copies == 0
    case Deliver(l, _, copies) => l + 1 == k ==> copies == 0
    case Settle(_, copies) => k == 0 ==> copies == 0
    case Skip => true
    case _ => false
  }

  function UpperEvent(k: nat, e: Event): Event {
    match e
    case Write(i, _, _) => if i <= k then e else Skip
    case Deliver(l, _, _) => if l < k then e else Skip
    case Settle(_, _) => e
    case _ => Skip
  }

  function LowerEvent(k: nat, e: Event): Event {
    match e
    case Write(i, op, copies) => if i > k then Write(i - k - 1, op, copies) else Skip
    case Deliver(l, j, copies) =>
      if l == k then Settle(j, copies) else if l > k then Deliver(l - k - 1, j, copies) else Skip
    case _ => Skip
  }

  lemma ReceiveAbove(c: Chain, k: nat, i: nat, op: Op, copies: nat)
    requires WellFormed(c) && k + 1 < |c.replicas| && i <= k && (i == k ==> copies == 0)
    ensures Upper(Receive(c, i, op, copies), k) == Receive(Upper(c, k), i, op, copies)
    ensures Lower(Receive(c, i, op, copies), k) == Lower(c, k)
  {
    var a, b := Upper(Receive(c, i, op, copies), k), Receive(Upper(c, k), i, op, copies);
    assert a.replicas == b.replicas;
    if i == k {
      assert Forwarded(c.replicas[i], op, copies) == [];
      assert c.links[i] + [] == c.links[i];
      assert c.links[i := c.links[i]] == c.links;
    }
    assert a.links == b.links;
    assert Lower(Receive(c, i, op, copies), k).replicas == Lower(c, k).replicas;
  }

  lemma ReceiveBelow(c: Chain, k: nat, i: nat, op: Op, copies: nat)
    requires WellFormed(c) && k + 1 < |c.replicas| && k < i < |c.replicas|
    ensures Upper(Receive(c, i, op, copies), k) == Upper(c, k)
    ensures Lower(Receive(c, i, op, copies), k) == Receive(Lower(c, k), i - k - 1, op, copies)
  {
    var a, b := Lower(Receive(c, i, op, copies), k), Receive(Lower(c, k), i - k - 1, op, copies);
    assert a.replicas == b.replicas;
    assert a.links == b.links;
  }

  lemma EmptiedLinkAbove(c: Chain, k: nat, l: nat, q: seq<Op>)
    requires WellFormed(c) && k + 1 < |c.replicas| && l < k
    ensures Upper(c.(links := c.links[l := q]), k) == Upper(c, k).(links := Upper(c, k).links[l := q])
    ensures Lower(c.(links := c.links[l := q]), k) == Lower(c, k)
  {
  }

  lemma EmptiedLinkBelow(c: Chain, k: nat, l: nat, q: seq<Op>)
    requires WellFormed(c) && k + 1 < |c.replicas| && k <= l < |c.links|
    ensures var c', d := c.(links := c.links[l := q]), Lower(c, k);
            && Upper(c', k) == Upper(c, k)
            && (l == k ==> Lower(c', k) == d.(leftover := q))
            && (l > k ==> Lower(c', k) == d.(links := d.links[l - k - 1 := q]))
  {
  }

  lemma DeliverInWindow(c: Chain, k: nat, l: nat, j: nat, copies: nat)
    requires WellFormed(c) && k + 1 < |c.replicas| && l < |c.links| && j < |c.links[l]|
    requires l + 1 == k ==> copies == 0
    ensures var c', u, d := Take(c, l, j, copies), Upper(c, k), Lower(c, k);
            && (l < k ==> Upper(c', k) == Take(u, l, j, copies) && Lower(c', k) == d)
            && (l == k ==> Upper(c', k) == u && Lower(c', k) == TakeLeftover(d, j, copies))
            && (l > k ==> Upper(c', k) == u && Lower(c', k) == Take(d, l - k - 1, j, copies))
  {
    var rest := Without(c.links[l], j);
    var c1 := c.(links := c.links[l := rest]);
    if l < k {
      EmptiedLinkAbove(c, k, l, rest);
      ReceiveAbove(c1, k, l + 1, c.links[l][j], copies);
    } else {
      EmptiedLinkBelow(c, k, l, rest);
      ReceiveBelow(c1, k, l + 1, c.links[l][j], copies);
    }
  }

  lemma SettleInWindow(c: Chain, k: nat, j: nat, copies: nat)
    requires WellFormed(c) && k + 1 < |c.replicas| && j < |c.leftover| && (k == 0 ==> copies == 0)
    ensures Upper(TakeLeftover(c, j, copies), k) == TakeLeftover(Upper(c, k), j, copies)
    ensures Lower(TakeLeftover(c, j, copies), k) == Lower(c, k)
  {
    ReceiveAbove(c.(leftover := Without(c.leftover, j)), k, 0, c.leftover[j], copies);
  }

  /** In the window every step is a step of each part. */
  lemma StepInWindow(c: Chain, k: nat, e: Event)
    requires WellFormed(c) && k + 1 < |c.replicas| && Enabled(c, e) && InWindow(k, e)
    ensures var c', u, d := Next(c, e), Upper(c, k), Lower(c, k);
            && |c'.replicas| == |c.replicas|
            && Enabled(u, UpperEvent(k, e)) && Upper(c', k) == Next(u, UpperEvent(k, e))
            && Enabled(d, LowerEvent(k, e)) && Lower(c', k) == Next(d, LowerEvent(k, e))
  {
    match e
    case Write(i, op, copies) => WriteInWindow(c, k, i, op, copies);
    case Deliver(l, j, copies) =>
      DeliverInWindow(c, k, l, j, copies);
      DeliverParts(c, k, l, j, copies);
    case Settle(j, copies) => SettleInWindow(c, k, j, copies);
    case Skip =>
  }

  lemma WriteInWindow(c: Chain, k: nat, i: nat, op: Op, copies: nat)
    requires WellFormed(c) && k + 1 < |c.replicas| && i < |c.replicas| && (i == k ==> copies == 0)
    ensures var c', u, d, e := Receive(c, i, op, copies), Upper(c, k), Lower(c, k), Write(i, op, copies);
            && Enabled(u, UpperEvent(k, e)) && Upper(c', k) == Next(u, UpperEvent(k, e))
            && Enabled(d, LowerEvent(k, e)) && Lower(c', k) == Next(d, LowerEvent(k, e))
  {
    if i <= k {
      ReceiveAbove(c, k, i, op, copies);
    } else {
      ReceiveBelow(c, k, i, op, copies);
    }
  }

  lemma DeliverParts(c: Chain, k: nat, l: nat, j: nat, copies: nat)
    requires WellFormed(c) && k + 1 < |c.replicas| && l < |c.links| && j < |c.links[l]|
    ensures var u, d, e := Upper(c, k), Lower(c, k), Deliver(l, j, copies);
            && Enabled(u, UpperEvent(k, e)) && Enabled(d, LowerEvent(k, e))
            && Next(u, UpperEvent(k, e)) == (if l < k then Take(u, l, j, copies) else u)
            && Next(d, LowerEvent(k, e)) ==
               (if l < k then d else if l == k then TakeLeftover(d, j, copies) else Take(d, l - k - 1, j, copies))
  {
  }

  predicate WindowRun(c: Chain, k: nat, es: seq<Event>)
    requires WellFormed(c) && CanRun(c, es)
  {
    forall i :: 0 <= i < |es| ==> InWindow(k, es[i])
  }

  function UpperRun(k: nat, es: seq<Event>): seq<Event> {
    if es == [] then [] else [UpperEvent(k, es[0])] + UpperRun(k, es[1..])
  }

  function LowerRun(k: nat, es: seq<Event>): seq<Event> {
    if es == [] then [] else [LowerEvent(k, es[0])] + LowerRun(k, es[1..])
  }

  lemma {:induction false} RunInWindow(c: Chain, k: nat, es: seq<Event>)
    requires WellFormed(c) && k + 1 < |c.replicas| && CanRun(c, es) && WindowRun(c, k, es)
    ensures var c', u, d := Exec(c, es), Upper(c, k), Lower(c, k);
            && |c'.replicas| == |c.replicas|
            && CanRun(u, UpperRun(k, es)) && Upper(c', k) == Exec(u, UpperRun(k, es))
            && CanRun(d, LowerRun(k, es)) && Lower(c', k) == Exec(d, LowerRun(k, es))
    decreases |es|
  {
    if es != [] {
      StepInWindow(c, k, es[0]);
      RunInWindow(Next(c, es[0]), k, es[1..]);
      assert UpperRun(k, es)[1..] == UpperRun(k, es[1..]) && LowerRun(k, es)[1..] == LowerRun(k, es[1..]);
    }
  }

  /** Both parts do their work without doing harm: as chains of their own their steps are safe, and
      the lower one loses nothing. */
  ghost predicate SoundWindow(c: Chain, k: nat, es: seq<Event>)
    requires WellFormed(c) && k + 1 < |c.replicas|
  {
    && CanRun(c, es) && WindowRun(c, k, es)
    && CanRun(Upper(c, k), UpperRun(k, es)) && SafeRun(Upper(c, k), UpperRun(k, es))
    && CanRun(Lower(c, k), LowerRun(k, es)) && SafeRun(Lower(c, k), LowerRun(k, es))
    && LosslessRun(Lower(c, k), LowerRun(k, es))
  }

  /** Any number of writes and messages handled in the window, on both sides: the chain comes out of
      it on course exactly if server k ends with what the lower part was going to hold when the
      window opened, and what clients have written there since. */
  lemma WindowIff(c: Chain, k: nat, es: seq<Event>)
    requires WellFormed(c) && k + 1 < |c.replicas| && SoundWindow(c, k, es)
    requires LinksHold(Upper(c, k)) && LinksHold(Lower(c, k))
    ensures |Exec(c, es).replicas| == |c.replicas|
    ensures LinksHold(Exec(c, es)) <==>
            Exec(c, es).replicas[k] == ApplyAll(Intent(Lower(c, k)), EffectiveWrites(Lower(c, k), LowerRun(k, es)))
  {
    var c' := Exec(c, es);
    RunInWindow(c, k, es);
    RunKeepsLinks(Upper(c, k), UpperRun(k, es));
    RunKeepsLinks(Lower(c, k), LowerRun(k, es));
    RunKeepsIntent(Lower(c, k), LowerRun(k, es));
    CutIff(c', k);
    assert Tail(Upper(c', k)) == c'.replicas[k];
  }

  // ---- the two windows ----

  /** The server behind k is lost, and it was not the last: the chain comes out on course exactly if
      server k ends with what the lost server held, and what clients wrote behind it since. */
  lemma CrashWindowIff(c: Chain, k: nat, es: seq<Event>)
    requires WellFormed(c) && LinksHold(c) && k + 2 < |c.replicas| && SoundWindow(Next(c, LoseMiddle(k + 1)), k, es)
    ensures var c1 := Next(c, LoseMiddle(k + 1));
            && |Exec(c1, es).replicas| == |c1.replicas|
            && (LinksHold(Exec(c1, es)) <==>
                 Exec(c1, es).replicas[k] ==
                 ApplyAll(c.replicas[k + 1], EffectiveWrites(Lower(c1, k), LowerRun(k, es))))
  {
    var c1 := Next(c, LoseMiddle(k + 1));
    CutIff(c, k);
    CutIff(c, k + 1);
    assert Upper(c1, k) == Upper(c, k);
    assert Lower(c1, k) == Lower(c, k + 1);
    assert Tail(Upper(c, k + 1)) == c.replicas[k + 1];
    WindowIff(c1, k, es);
  }

  /** A server has joined behind the last, with whatever table: the chain comes out on course exactly
      if the last ends with what the joiner was loaded with, and what clients wrote there since. */
  lemma JoinWindowIff(c: Chain, s: Store, es: seq<Event>)
    requires WellFormed(c) && LinksHold(c) && SoundWindow(Next(c, Join(s)), |c.links|, es)
    ensures var c1, k := Next(c, Join(s)), |c.links|;
            && |Exec(c1, es).replicas| == |c1.replicas|
            && (LinksHold(Exec(c1, es)) <==>
                 Exec(c1, es).replicas[k] == ApplyAll(s, EffectiveWrites(Lower(c1, k), LowerRun(k, es))))
  {
    var c1, k := Next(c, Join(s)), |c.links|;
    assert Upper(c1, k) == c;
    assert Lower(c1, k) == Chain([s], [], []);
    WindowIff(c1, k, es);
  }

  /** Three empty servers; the middle one is lost, and the head takes a PUT before it has noticed: the
      tail never gets it, although nothing is under way. */
  lemma WindowSplits(k: CString, v: Block)
    ensures var c := Next(Start(3, map[]), LoseMiddle(1));
            var c' := Next(c, Write(0, Put(k, v), 0));
            && InWindow(0, Write(0, Put(k, v), 0)) && !Safe(c, Write(0, Put(k, v), 0))
            && Drained(c') && At(c'.replicas[0], k) == Some(v) && At(Tail(c'), k) == None
  {
    var c := Next(Start(3, map[]), LoseMiddle(1));
    assert c == Chain([map[], map[]], [[]], []);
    assert Forwarded(map[], Put(k, v), 0) == [];
    assert At(Apply(map[], Put(k, v)), k) == Some(v);
  }
}
