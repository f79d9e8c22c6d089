/** With clients stopped and membership fixed, deliveries come to an end. A message d hops
    from the tail stands for at most 2^(d+1)-1 deliveries, since it is forwarded at most
    twice. */
module Draining {
  import opened Entries
  import opened Operations
  import opened Chains
  import opened HeadLosses

  function PowerOfTwo(n: nat): nat {
    if n == 0 then 1 else 2 * PowerOfTwo(n - 1)
  }

  function Weight(d: nat): nat {
    if d == 0 then 1 else 2 * Weight(d - 1) + 1
  }

  lemma {:induction false} WeightClosed(d: nat)
    ensures Weight(d) == PowerOfTwo(d + 1) - 1
  {
    if d > 0 {
      WeightClosed(d - 1);
    } else {
      assert PowerOfTwo(0) == 1;
    }
  }

  /** The deliveries a row of queues can still cause, the last queue being nearest the tail. */
  function Pending(queues: seq<seq<Op>>): nat {
    if queues == [] then 0 else |queues[0]| * Weight(|queues| - 1) + Pending(queues[1..])
  }

  lemma {:induction false} PendingUpdate(queues: seq<seq<Op>>, i: nat, q: seq<Op>)
    requires i < |queues|
    ensures Pending(queues[i := q]) == Pending(queues) + (|q| - |queues[i]|) * Weight(|queues| - 1 - i)
  {
    if i == 0 {
      assert queues[0 := q][1..] == queues[1..];
      MinusTimes(|q|, |queues[0]|, Weight(|queues| - 1));
    } else {
      PendingUpdate(queues[1..], i - 1, q);
      assert queues[i := q][1..] == queues[1..][i - 1 := q];
    }
  }

  lemma MinusTimes(a: int, b: int, w: int)
    ensures a * w - b * w == (a - b) * w
  {
  }

  lemma {:induction false} PendingZero(queues: seq<seq<Op>>)
    ensures Pending(queues) == 0 <==> forall i :: 0 <= i < |queues| ==> queues[i] == []
  {
    if queues != [] {
      PendingZero(queues[1..]);
      assert forall i :: 0 < i < |queues| ==> queues[i] == queues[1..][i - 1];
      var a, w := |queues[0]|, Weight(|queues| - 1);
      assert a > 0 ==> a * w >= w by {
        if a > 0 { MinusTimes(a, 1, w); AtLeastZero(a - 1, w); }
      }
    }
  }

  lemma TimesSmall(a: int, w: int)
    requires -1 <= a <= 2
    ensures a * w == if a == -1 then 0 - w else if a == 0 then 0 else if a == 1 then w else w + w
  {
  }

  lemma AtLeastZero(a: nat, w: nat)
    ensures a * w >= 0
  {
  }

  /** The heart of termination, for any queues in which a message handled from queue i gives
      rise to at most two messages in one queue nearer the tail. */
  lemma HandlingDecreases(queues: seq<seq<Op>>, i: nat, rest: seq<Op>, j: nat, more: seq<Op>)
    requires i < j < |queues| && |rest| + 1 == |queues[i]| && |more| <= 2
    ensures var q := queues[i := rest];
            && Pending(q[j := q[j] + more]) < Pending(queues)
            && (|more| == 2 && j == i + 1 ==> Pending(q[j := q[j] + more]) == Pending(queues) - 1)
  {
    var q := queues[i := rest];
    PendingUpdate(queues, i, rest);
    PendingUpdate(q, j, q[j] + more);
    var wi, wj := Weight(|queues| - 1 - i), Weight(|queues| - 1 - j);
    WeightGrows(|queues| - 1 - j, |queues| - 1 - i);
    TimesSmall(|rest| - |queues[i]|, wi);
    TimesSmall(|more|, wj);
  }

  lemma {:induction false} WeightGrows(a: nat, b: nat)
    requires a < b
    ensures 2 * Weight(a) + 1 <= Weight(b)
    ensures b == a + 1 ==> 2 * Weight(a) + 1 == Weight(b)
    decreases b - a
  {
    if a + 1 < b {
      WeightGrows(a, b - 1);
    }
  }

  lemma HandlingLastDecreases(queues: seq<seq<Op>>, i: nat, rest: seq<Op>)
    requires i < |queues| && |rest| + 1 == |queues[i]|
    ensures Pending(queues[i := rest]) == Pending(queues) - Weight(|queues| - 1 - i)
    ensures Weight(|queues| - 1 - i) > 0
  {
    PendingUpdate(queues, i, rest);
    TimesSmall(|rest| - |queues[i]|, Weight(|queues| - 1 - i));
  }

  // ---- the chain ----

  /** The head's leftovers and the links, that is, what each server has still to handle. */
  function Queues(c: Chain): seq<seq<Op>> {
    [c.leftover] + c.links
  }

  predicate Delivery(e: Event) {
    (e.Deliver? || e.Settle?) && e.copies <= 2
  }

  /** A delivery with both forwards of the source. */
  predicate DoubleDelivery(e: Event) {
    Delivery(e) && e.copies == 2
  }

  predicate AllPuts(c: Chain) {
    forall i, j :: 0 <= i < |Queues(c)| && 0 <= j < |Queues(c)[i]| ==> Queues(c)[i][j].Put?
  }

  /** The server that handles the message. */
  function Where(e: Event): nat
    requires Delivery(e)
  {
    if e.Deliver? then e.link + 1 else 0
  }

  /** A delivery takes one message from the queue of a server and may add to that of the next. */
  lemma DeliveryQueues(c: Chain, e: Event)
    requires WellFormed(c) && Enabled(c, e) && Delivery(e)
    ensures var q, i := Queues(c), Where(e);
            && i < |q| && e.index < |q[i]|
            && var q1, more := q[i := Without(q[i], e.index)], Forwarded(c.replicas[i], q[i][e.index], e.copies);
               Queues(Next(c, e)) == if i + 1 < |q| then q1[i + 1 := q1[i + 1] + more] else q1
  {
  }

  /** A delivery uses up at least one unit, and exactly one for a PUT forwarded twice. */
  lemma DeliveryDecreases(c: Chain, e: Event)
    requires WellFormed(c) && Enabled(c, e) && Delivery(e)
    ensures Pending(Queues(Next(c, e))) < Pending(Queues(c))
    ensures Queues(c)[Where(e)][e.index].Put? && e.copies == 2 ==>
              Pending(Queues(Next(c, e))) == Pending(Queues(c)) - 1
  {
    DeliveryQueues(c, e);
    var q, i := Queues(c), Where(e);
    var rest, more := Without(q[i], e.index), Forwarded(c.replicas[i], q[i][e.index], e.copies);
    if i + 1 < |q| {
      HandlingDecreases(q, i, rest, i + 1, more);
    } else {
      HandlingLastDecreases(q, i, rest);
    }
  }

  lemma DeliveryKeepsPuts(c: Chain, e: Event)
    requires WellFormed(c) && Enabled(c, e) && Delivery(e) && AllPuts(c)
    ensures AllPuts(Next(c, e))
  {
    DeliveryQueues(c, e);
    var q: seq<seq<Op>>, q': seq<seq<Op>>, w := Queues(c), Queues(Next(c, e)), Where(e);
    forall i, j | 0 <= i < |q'| && 0 <= j < |q'[i]| ensures q'[i][j].Put? {
      if i == w {
        assert q'[i][j] == if j < e.index then q[i][j] else q[i][j + 1];
      } else if i == w + 1 && j >= |q[i]| {
        assert q'[i][j] == q[w][e.index];
      } else {
        assert q'[i][j] == q[i][j];
      }
    }
  }

  /** Deliveries alone cannot go on for more steps than the messages under way stand for. */
  lemma {:induction false} DeliveriesAreBounded(c: Chain, es: seq<Event>)
    requires WellFormed(c) && CanRun(c, es) && forall i :: 0 <= i < |es| ==> Delivery(es[i])
    ensures |es| + Pending(Queues(Exec(c, es))) <= Pending(Queues(c))
    ensures AllPuts(c) && (forall i :: 0 <= i < |es| ==> DoubleDelivery(es[i])) ==>
              |es| + Pending(Queues(Exec(c, es))) == Pending(Queues(c))
    decreases |es|
  {
    if es != [] {
      DeliveryDecreases(c, es[0]);
      if AllPuts(c) {
        DeliveryKeepsPuts(c, es[0]);
      }
      DeliveriesAreBounded(Next(c, es[0]), es[1..]);
    }
  }

  /** Nothing is under way and the head has no leftovers. */
  predicate Quiet(c: Chain) {
    Drained(c) && c.leftover == []
  }

  /** Some message at the front of its queue. */
  function FrontDelivery(c: Chain): (e: Event)
    requires WellFormed(c) && !Quiet(c)
    ensures Enabled(c, e) && Safe(c, e) && Lossless(c, e) && DoubleDelivery(e)
  {
    if c.leftover != [] then FrontIsHarmless(c.leftover); Settle(0, 2)
    else var l := FirstBusy(c.links, 0); FrontIsHarmless(c.links[l]); Deliver(l, 0, 2)
  }

  function FirstBusy(links: seq<seq<Op>>, from: nat): (l: nat)
    requires exists i :: from <= i < |links| && links[i] != []
    ensures from <= l < |links| && links[l] != []
    decreases |links| - from
  {
    if links[from] != [] then from else FirstBusy(links, from + 1)
  }

  /** A schedule that empties every queue. */
  function DrainAll(c: Chain): (es: seq<Event>)
    requires WellFormed(c)
    decreases Pending(Queues(c))
  {
    if Quiet(c) then []
    else
      var e := FrontDelivery(c);
      DeliveryDecreases(c, e);
      [e] + DrainAll(Next(c, e))
  }

  lemma {:induction false} DrainAllDrains(c: Chain)
    requires WellFormed(c)
    ensures CanRun(c, DrainAll(c)) && HarmlessRun(c, DrainAll(c)) && Quiet(Exec(c, DrainAll(c)))
    decreases Pending(Queues(c))
  {
    if !Quiet(c) {
      var e := FrontDelivery(c);
      DeliveryDecreases(c, e);
      DrainAllDrains(Next(c, e));
      assert DrainAll(c)[1..] == DrainAll(Next(c, e));
    }
  }

  /** Deliveries that break no guard. */
  predicate HarmlessRun(c: Chain, es: seq<Event>)
    requires WellFormed(c) && CanRun(c, es)
  {
    SafeRun(c, es) && LosslessRun(c, es) && forall i :: 0 <= i < |es| ==> Delivery(es[i])
  }

  /** No harmless delivery is left. */
  ghost predicate Stuck(c: Chain)
    requires WellFormed(c)
  {
    forall e :: Delivery(e) && Enabled(c, e) ==> !(Safe(c, e) && Lossless(c, e))
  }

  lemma StuckIsQuiet(c: Chain)
    requires WellFormed(c)
    ensures Stuck(c) <==> Quiet(c)
  {
    if !Quiet(c) {
      var e := FrontDelivery(c);
      assert Delivery(e) && Enabled(c, e) && Safe(c, e) && Lossless(c, e);
    }
  }

  lemma {:induction false} DeliveriesWriteNothing(c: Chain, es: seq<Event>)
    requires WellFormed(c) && CanRun(c, es) && forall i :: 0 <= i < |es| ==> Delivery(es[i])
    ensures EffectiveWrites(c, es) == [] && |Exec(c, es).replicas| == |c.replicas|
    decreases |es|
  {
    if es != [] {
      DeliveriesWriteNothing(Next(c, es[0]), es[1..]);
    }
  }

  /** These deliveries are no more than were pending, leave nothing under way and bring every
      replica to this store. */
  ghost predicate SettlesAt(c: Chain, more: seq<Event>, s: Store)
    requires WellFormed(c) && CanRun(c, more)
  {
    && |more| <= Pending(Queues(c)) && Quiet(Exec(c, more))
    && Exec(c, more).replicas == seq(|c.replicas|, _ => s)
  }

  /** However harmless deliveries are scheduled, once there are none left the chain has settled at
      this store, and there is a schedule. */
  ghost predicate AlwaysSettlesAt(c: Chain, s: Store)
    requires WellFormed(c)
  {
    && (forall more :: CanRun(c, more) && HarmlessRun(c, more) && Stuck(Exec(c, more)) ==> SettlesAt(c, more, s))
    && (exists more :: CanRun(c, more) && HarmlessRun(c, more) && Stuck(Exec(c, more)))
  }

  lemma ScheduleSettles(c: Chain, more: seq<Event>)
    requires WellFormed(c) && LinksHold(c)
    requires CanRun(c, more) && HarmlessRun(c, more) && Stuck(Exec(c, more))
    ensures SettlesAt(c, more, Intent(c))
  {
    var c' := Exec(c, more);
    StuckIsQuiet(c');
    DeliveriesAreBounded(c, more);
    DeliveriesWriteNothing(c, more);
    RunKeepsLinks(c, more);
    RunKeepsIntent(c, more);
    forall i | 0 <= i < |c'.replicas| ensures c'.replicas[i] == Intent(c) {
      DrainedAgree(c', 0, i);
    }
  }

  /** From every state in which the links hold, every schedule of harmless deliveries comes to an end
      with all replicas at what the head was going to hold. */
  lemma QuiescenceFrom(c: Chain)
    requires WellFormed(c) && LinksHold(c)
    ensures AlwaysSettlesAt(c, Intent(c))
  {
    forall more | CanRun(c, more) && HarmlessRun(c, more) && Stuck(Exec(c, more))
      ensures SettlesAt(c, more, Intent(c))
    {
      ScheduleSettles(c, more);
    }
    DrainAllDrains(c);
    StuckIsQuiet(Exec(c, DrainAll(c)));
  }

  /** From every state reached by safe steps, every schedule of harmless deliveries comes to an end,
      and then all replicas agree. */
  lemma QuiescenceIsReached(n: nat, base: Store, es: seq<Event>)
    requires n > 0 && CanRun(Start(n, base), es) && SafeRun(Start(n, base), es)
    ensures var c := Exec(Start(n, base), es); AlwaysSettlesAt(c, Intent(c))
  {
    assert LinksHold(Start(n, base));
    RunKeepsLinks(Start(n, base), es);
    QuiescenceFrom(Exec(Start(n, base), es));
  }

  /** If no step broke a guard, heads lost on the way included, what the replicas come to agree
      on is exactly the effective writes, in order. */
  lemma EffectiveWritesArrive(n: nat, base: Store, es: seq<Event>)
    requires n > 0 && CanRun(Start(n, base), es) && SafeRun(Start(n, base), es) && LosslessRun(Start(n, base), es)
    ensures AlwaysSettlesAt(Exec(Start(n, base), es), ApplyAll(base, EffectiveWrites(Start(n, base), es)))
  {
    assert LinksHold(Start(n, base));
    RunKeepsIntent(Start(n, base), es);
    QuiescenceIsReached(n, base, es);
  }

  /** One PUT on a quiet chain of n servers, with both forwards of the source, is handled
      2^n - 2 times beyond the head before the chain is quiet again. */
  lemma OnePutCosts(c: Chain, op: Op, es: seq<Event>)
    requires WellFormed(c) && Quiet(c) && op.Put?
    requires CanRun(Next(c, Write(0, op, 2)), es) && Quiet(Exec(Next(c, Write(0, op, 2)), es))
    requires forall i :: 0 <= i < |es| ==> DoubleDelivery(es[i])
    ensures |es| == PowerOfTwo(|c.replicas|) - 2
  {
    var c1 := Next(c, Write(0, op, 2));
    PutOnQuietChain(c, op);
    DeliveriesAreBounded(c1, es);
    PendingZero(Queues(Exec(c1, es)));
  }

  lemma PutOnQuietChain(c: Chain, op: Op)
    requires WellFormed(c) && Quiet(c) && op.Put?
    ensures var c1 := Next(c, Write(0, op, 2));
            AllPuts(c1) && Pending(Queues(c1)) == PowerOfTwo(|c.replicas|) - 2
  {
    PendingZero(Queues(c));
    var c1 := Next(c, Write(0, op, 2));
    if |c.links| > 0 {
      var q := Forwarded(c.replicas[0], op, 2);
      assert c.links[0] + q == q;
      assert Queues(c1) == Queues(c)[1 := q];
      PendingUpdate(Queues(c), 1, q);
      TimesSmall(2, Weight(|c.links| - 1));
      WeightClosed(|c.links| - 1);
    } else {
      assert Queues(c1) == Queues(c);
      assert PowerOfTwo(0) == 1 && PowerOfTwo(1) == 2;
    }
  }
}
