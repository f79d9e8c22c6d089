/** What becomes of writes when the head is lost. The next head still has to handle
    what the lost one had sent it; clients may write there before it has. */
module HeadLosses {
  import opened CStrings
  import opened Entries
  import opened Operations
  import opened Chains

  /** What the head will hold once it has handled its leftovers in order. */
  function Intent(c: Chain): Store
    requires WellFormed(c)
  {
    ApplyAll(c.replicas[0], c.leftover)
  }

  /** Handling what the lost head had sent before anything else gives exactly its store: while
      its successor lives, no write that took effect there is lost with it. */
  lemma HeadLossKeepsWrites(c: Chain)
    requires WellFormed(c) && LinksHold(c) && |c.replicas| > 1
    ensures Intent(Next(c, LoseHead)) == c.replicas[0]
  {
    assert LinkHolds(c, 0);
  }

  /** No leftover will undo the write: none is about its key, or the last of those says the
      same. A DEL that finds nothing has no effect. */
  predicate Outlasts(c: Chain, op: Op)
    requires WellFormed(c)
  {
    !Effective(c.replicas[0], op) || LastOn(c.leftover, op.key) == None || LastOn(c.leftover, op.key) == Some(op)
  }

  lemma LaterOrRepeated(t: Store, op: Op, ops: seq<Op>)
    ensures ApplyAll(Apply(t, op), ops) == Apply(ApplyAll(t, ops), op) <==>
            LastOn(ops, op.key) == None || LastOn(ops, op.key) == Some(op)
  {
    var a, b := ApplyAll(Apply(t, op), ops), Apply(ApplyAll(t, ops), op);
    forall k ensures k != op.key ==> At(a, k) == At(b, k) {
      ApplyAllAt(Apply(t, op), ops, k);
      ApplyAllAt(t, ops, k);
      ApplyAt(t, op, k);
      ApplyAt(ApplyAll(t, ops), op, k);
    }
    ApplyAllAt(Apply(t, op), ops, op.key);
    ApplyAt(t, op, op.key);
    ApplyAt(ApplyAll(t, ops), op, op.key);
    LastOnIsMember(ops, op.key);
    if At(a, op.key) == At(b, op.key) {
      StoresEqual(a, b);
    }
  }

  /** A write at a head with leftovers is the last word on its key exactly when it outlasts
      them. */
  lemma WriteOverLeftoversIff(c: Chain, op: Op, copies: nat)
    requires WellFormed(c)
    ensures Intent(Receive(c, 0, op, copies)) == ApplyAll(Intent(c), if Effective(c.replicas[0], op) then [op] else [])
            <==> Outlasts(c, op)
  {
    if Effective(c.replicas[0], op) {
      LaterOrRepeated(c.replicas[0], op, c.leftover);
      ApplyOne(Intent(c), op);
    } else {
      IneffectiveChangesNothing(c.replicas[0], op);
    }
  }

  lemma ApplyOne(t: Store, op: Op)
    ensures ApplyAll(t, [op]) == Apply(t, op)
  {
    assert [op][1..] == [];
  }

  /** The store already holds what the last message on each key will leave. */
  predicate Absorbed(s: Store, ops: seq<Op>) {
    forall i :: 0 <= i < |ops| ==>
      LastOn(ops, ops[i].key).Some? && At(s, ops[i].key) == Written(LastOn(ops, ops[i].key).value)
  }

  lemma AbsorbedIff(s: Store, ops: seq<Op>)
    ensures Absorbed(s, ops) <==> ApplyAll(s, ops) == s
  {
    forall i | 0 <= i < |ops| ensures LastOn(ops, ops[i].key).Some? {
      LastOnIsMember(ops, ops[i].key);
    }
    forall k
      ensures At(ApplyAll(s, ops), k) == match LastOn(ops, k) case None => At(s, k) case Some(op) => Written(op)
    {
      ApplyAllAt(s, ops, k);
    }
    if Absorbed(s, ops) {
      forall k ensures At(ApplyAll(s, ops), k) == At(s, k) {
        LastOnIsMember(ops, k);
        if LastOn(ops, k).Some? {
          var i :| 0 <= i < |ops| && ops[i] == LastOn(ops, k).value;
        }
      }
      StoresEqual(ApplyAll(s, ops), s);
    }
  }

  /** What can be seen before a step of whether it keeps all that has taken effect. Leftovers
      that the head has applied already may be lost with it. */
  predicate Lossless(c: Chain, e: Event)
    requires WellFormed(c) && Enabled(c, e)
  {
    match e
    case Write(i, op, _) =>
      if i == 0 then Outlasts(c, op) else !Effective(c.replicas[i], op) || Apply(Intent(c), op) == Intent(c)
    case Settle(j, _) => Harmless(c.leftover, j)
    case LoseHead => Absorbed(c.replicas[0], c.leftover)
    case _ => true
  }

  /** One step adds what takes effect in it to what the head is going to hold, and takes nothing
      away, exactly when its guard holds. */
  lemma StepKeepsIntent(c: Chain, e: Event)
    requires WellFormed(c) && Enabled(c, e) && (e.LoseHead? ==> LinksHold(c))
    ensures Intent(Next(c, e)) == ApplyAll(Intent(c), StepEffect(c, e)) <==> Lossless(c, e)
  {
    match e
    case Write(i, op, copies) =>
      if i == 0 {
        WriteOverLeftoversIff(c, op, copies);
      } else {
        ApplyOne(Intent(c), op);
      }
    case Settle(j, copies) => OutOfTurn(c.replicas[0], c.leftover, j);
    case LoseHead =>
      HeadLossKeepsWrites(c);
      AbsorbedIff(c.replicas[0], c.leftover);
    case _ =>
  }

  predicate LosslessRun(c: Chain, es: seq<Event>)
    requires WellFormed(c) && CanRun(c, es)
    decreases |es|
  {
    es == [] || (Lossless(c, es[0]) && LosslessRun(Next(c, es[0]), es[1..]))
  }

  predicate NoHeadLoss(es: seq<Event>) {
    forall i :: 0 <= i < |es| ==> !es[i].LoseHead?
  }

  /** Over a run, what the head is going to hold changes by the effective writes, in order. */
  lemma {:induction false} RunKeepsIntent(c: Chain, es: seq<Event>)
    requires WellFormed(c) && CanRun(c, es) && LosslessRun(c, es)
    requires NoHeadLoss(es) || (LinksHold(c) && SafeRun(c, es))
    ensures Intent(Exec(c, es)) == ApplyAll(Intent(c), EffectiveWrites(c, es))
    decreases |es|
  {
    if es != [] {
      var c1 := Next(c, es[0]);
      StepKeepsIntent(c, es[0]);
      if !NoHeadLoss(es) {
        StepKeepsLinks(c, es[0]);
      }
      RunKeepsIntent(c1, es[1..]);
      ApplyAllConcat(Intent(c), StepEffect(c, es[0]), EffectiveWrites(c1, es[1..]));
    }
  }

  /** Whatever else happens at the other servers, once the new head has handled its leftovers it
      holds the lost head's store and the writes in effect since. */
  lemma SettlingRecovers(c: Chain, es: seq<Event>)
    requires WellFormed(c) && LinksHold(c) && |c.replicas| > 1
    requires var c1 := Next(c, LoseHead); CanRun(c1, es) && LosslessRun(c1, es) && NoHeadLoss(es)
    requires Exec(Next(c, LoseHead), es).leftover == []
    ensures Exec(Next(c, LoseHead), es).replicas[0] == ApplyAll(c.replicas[0], EffectiveWrites(Next(c, LoseHead), es))
  {
    HeadLossKeepsWrites(c);
    RunKeepsIntent(Next(c, LoseHead), es);
  }

  /** Any number of servers may be lost, heads included: if every step kept its guard, then once
      nothing is under way every replica holds exactly the effective writes. */
  lemma EffectiveWritesSurvive(n: nat, base: Store, es: seq<Event>, i: nat)
    requires n > 0 && CanRun(Start(n, base), es) && SafeRun(Start(n, base), es) && LosslessRun(Start(n, base), es)
    requires var c := Exec(Start(n, base), es); Drained(c) && c.leftover == [] && i < |c.replicas|
    ensures Exec(Start(n, base), es).replicas[i] == ApplyAll(base, EffectiveWrites(Start(n, base), es))
  {
    assert LinksHold(Start(n, base));
    RunKeepsLinks(Start(n, base), es);
    RunKeepsIntent(Start(n, base), es);
    DrainedAgree(Exec(Start(n, base), es), 0, i);
  }

  // ---- what goes wrong otherwise ----

  /** This safe run of c ends in c' and these writes take effect in it. */
  ghost predicate Ran(c: Chain, es: seq<Event>, c': Chain, effects: seq<Op>) {
    WellFormed(c) && CanRun(c, es) && SafeRun(c, es) && Exec(c, es) == c' && EffectiveWrites(c, es) == effects
  }

  /** The head is lost when its successor has handled one of the two copies of a PUT. The new
      head takes a newer PUT, acknowledges it and then handles the second copy: reads of the tail show v,
      then w, then v again. */
  lemma StaleRepeatUndoesWrite(k: CString, v: Block, w: Block)
    requires v != w
    ensures var c, es := Start(2, map[]), [Write(0, Put(k, v), 2), Deliver(0, 0, 2), LoseHead];
            Ran(c, es, OneLeft(k, v, Put(k, v)), [Put(k, v)]) && LosslessRun(c, es)
    ensures var c := OneLeft(k, v, Put(k, v));
            && Effective(c.replicas[0], Put(k, w)) && !Outlasts(c, Put(k, w))
            && Next(c, Write(0, Put(k, w), 2)) == OneLeft(k, w, Put(k, v))
    ensures Next(OneLeft(k, w, Put(k, v)), Settle(0, 2)) == Chain([map[k := v]], [], [])
  {
    OneLeftIsReached(k, v);
    OverwriteOne(k, v, Put(k, w));
    OverwriteOne(k, w, Put(k, v));
    assert Without([Put(k, v)], 0) == [];
    assert [Put(k, v)][..0] == [];
  }

  lemma OneLeftIsReached(k: CString, v: Block)
    ensures var c, es := Start(2, map[]), [Write(0, Put(k, v), 2), Deliver(0, 0, 2), LoseHead];
            Ran(c, es, OneLeft(k, v, Put(k, v)), [Put(k, v)]) && LosslessRun(c, es)
  {
    var p := Put(k, v);
    WriteThenDeliver(k, v);
    FrontIsHarmless([p, p]);
    var c1 := Chain([map[k := v], map[]], [[p, p]], []);
    var c2 := Chain([map[k := v], map[k := v]], [[p]], []);
    var c0, c3 := Start(2, map[]), OneLeft(k, v, p);
    RanOn(c2, LoseHead, [], c3, [], c3, [], [LoseHead]);
    RanOn(c1, Deliver(0, 0, 2), [], c2, [LoseHead], c3, [], [Deliver(0, 0, 2), LoseHead]);
    RanOn(c0, Write(0, p, 2), [p], c1, [Deliver(0, 0, 2), LoseHead], c3, [],
          [Write(0, p, 2), Deliver(0, 0, 2), LoseHead]);
    LosslessOn(c2, LoseHead, c3, [], [LoseHead]);
    LosslessOn(c1, Deliver(0, 0, 2), c2, [LoseHead], [Deliver(0, 0, 2), LoseHead]);
    LosslessOn(c0, Write(0, p, 2), c1, [Deliver(0, 0, 2), LoseHead], [Write(0, p, 2), Deliver(0, 0, 2), LoseHead]);
  }

  lemma WriteThenDeliver(k: CString, v: Block)
    ensures var c1 := Chain([map[k := v], map[]], [[Put(k, v), Put(k, v)]], []);
            && Next(Start(2, map[]), Write(0, Put(k, v), 2)) == c1
            && Next(c1, Deliver(0, 0, 2)) == Chain([map[k := v], map[k := v]], [[Put(k, v)]], [])
  {
    var p := Put(k, v);
    assert [] + Copies(p, 2) == [p, p] && Without([p, p], 0) == [p];
  }

  /** A chain of one server, with one message left over. */
  function OneLeft(k: CString, v: Block, op: Op): Chain {
    Chain([map[k := v]], [], [op])
  }

  lemma OverwriteOne(k: CString, v: Block, op: Op)
    requires op.Put? && op.key == k
    ensures Apply(map[k := v], op) == map[k := op.value]
  {
  }

  lemma RanOn(c: Chain, e: Event, a: seq<Op>, c1: Chain, es: seq<Event>, c2: Chain, effects: seq<Op>, all: seq<Event>)
    requires WellFormed(c) && Enabled(c, e) && Safe(c, e) && a == StepEffect(c, e) && c1 == Next(c, e)
    requires Ran(c1, es, c2, effects) && all == [e] + es
    ensures Ran(c, all, c2, a + effects)
  {
    assert all[0] == e && all[1..] == es;
  }

  lemma LosslessOn(c: Chain, e: Event, c1: Chain, es: seq<Event>, all: seq<Event>)
    requires WellFormed(c) && Enabled(c, e) && Lossless(c, e) && c1 == Next(c, e)
    requires CanRun(c1, es) && LosslessRun(c1, es) && all == [e] + es
    ensures CanRun(c, all) && LosslessRun(c, all)
  {
    assert all[0] == e && all[1..] == es;
  }

  lemma WriteThenLosses(k: CString, v: Block)
    ensures var c1 := Chain([map[k := v], map[], map[]], [[Put(k, v), Put(k, v)], []], []);
            var c2 := Chain([map[], map[]], [[]], [Put(k, v), Put(k, v)]);
            && Next(Start(3, map[]), Write(0, Put(k, v), 2)) == c1
            && Next(c1, LoseHead) == c2 && Next(c2, LoseHead) == Chain([map[]], [], [])
  {
    assert [] + Copies(Put(k, v), 2) == [Put(k, v), Put(k, v)];
  }

  /** A PUT that its client was told of is lost when two heads are lost in a row, the second before it has
      handled what the first had sent: replication is not synchronous. */
  lemma AcknowledgedWriteCanBeLost(k: CString, v: Block)
    ensures var c, es := Start(3, map[]), [Write(0, Put(k, v), 2), LoseHead, LoseHead];
            && Ran(c, es, Chain([map[]], [], []), [Put(k, v)])
            && AckedWrites(c, es, false) == if IsString(v) then [Put(k, v)] else []
  {
    var p := Put(k, v);
    var c := Start(3, map[]);
    var c1 := Chain([map[k := v], map[], map[]], [[p, p], []], []);
    var c2 := Chain([map[], map[]], [[]], [p, p]);
    var c3 := Chain([map[]], [], []);
    WriteThenLosses(k, v);
    RanOn(c2, LoseHead, [], c3, [], c3, [], [LoseHead]);
    RanOn(c1, LoseHead, [], c2, [LoseHead], c3, [], [LoseHead, LoseHead]);
    RanOn(c, Write(0, p, 2), [p], c1, [LoseHead, LoseHead], c3, [], [Write(0, p, 2), LoseHead, LoseHead]);
    AckedAreEffective(c, [Write(0, p, 2), LoseHead, LoseHead], false);
    assert [p][..0] == [];
  }
}
