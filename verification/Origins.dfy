/** Nothing is invented: over runs of any kind, with messages overtaking each other, writes at any
    server and servers lost at any time, whatever a server holds or has still to handle was
    there at the start or comes from a write that took effect at some server. */
module Origins {
  import opened CStrings
  import opened Entries
  import opened Operations
  import opened Chains

  ghost predicate FromWrites(base: Store, effects: seq<Op>, k: CString, v: Option<Block>) {
    v == At(base, k) || exists op :: op in effects && op.key == k && v == Written(op)
  }

  ghost predicate GenuineStore(base: Store, effects: seq<Op>, s: Store) {
    forall k :: FromWrites(base, effects, k, At(s, k))
  }

  predicate GenuineQueue(effects: seq<Op>, q: seq<Op>) {
    forall j :: 0 <= j < |q| ==> q[j] in effects
  }

  ghost predicate Genuine(base: Store, effects: seq<Op>, c: Chain) {
    && (forall i :: 0 <= i < |c.replicas| ==> GenuineStore(base, effects, c.replicas[i]))
    && (forall i :: 0 <= i < |c.links| ==> GenuineQueue(effects, c.links[i]))
    && GenuineQueue(effects, c.leftover)
  }

  /** Who joins has a copy of some server's table. */
  predicate JoinsCopy(c: Chain, es: seq<Event>)
    requires WellFormed(c) && CanRun(c, es)
    decreases |es|
  {
    es == [] || ((es[0].Join? ==> es[0].store in c.replicas) && JoinsCopy(Next(c, es[0]), es[1..]))
  }

  lemma MoreWrites(base: Store, effects: seq<Op>, more: seq<Op>, c: Chain)
    requires Genuine(base, effects, c)
    ensures Genuine(base, effects + more, c)
  {
    forall i, k | 0 <= i < |c.replicas| ensures FromWrites(base, effects + more, k, At(c.replicas[i], k)) {
      assert GenuineStore(base, effects, c.replicas[i]) && FromWrites(base, effects, k, At(c.replicas[i], k));
    }
    forall i | 0 <= i < |c.links| ensures GenuineQueue(effects + more, c.links[i]) {
      assert GenuineQueue(effects, c.links[i]);
    }
  }

  lemma ApplyIsGenuine(base: Store, effects: seq<Op>, s: Store, op: Op)
    requires GenuineStore(base, effects, s) && op in effects
    ensures GenuineStore(base, effects, Apply(s, op))
  {
    forall k ensures FromWrites(base, effects, k, At(Apply(s, op), k)) {
      ApplyAt(s, op, k);
      assert FromWrites(base, effects, k, At(s, k));
    }
  }

  lemma ReceiveIsGenuine(base: Store, effects: seq<Op>, c: Chain, i: nat, op: Op, copies: nat)
    requires WellFormed(c) && Genuine(base, effects, c) && i < |c.replicas|
    requires Effective(c.replicas[i], op) ==> op in effects
    ensures Genuine(base, effects, Receive(c, i, op, copies))
  {
    var c' := Receive(c, i, op, copies);
    if Effective(c.replicas[i], op) {
      ApplyIsGenuine(base, effects, c.replicas[i], op);
    } else {
      IneffectiveChangesNothing(c.replicas[i], op);
    }
    forall l | 0 <= l < |c'.links| ensures GenuineQueue(effects, c'.links[l]) {
      assert GenuineQueue(effects, c.links[l]);
    }
  }

  lemma WithoutIsGenuine(effects: seq<Op>, q: seq<Op>, j: nat)
    requires GenuineQueue(effects, q) && j < |q|
    ensures GenuineQueue(effects, Without(q, j)) && q[j] in effects
  {
  }

  lemma StepIsGenuine(base: Store, effects: seq<Op>, c: Chain, e: Event)
    requires WellFormed(c) && Enabled(c, e) && Genuine(base, effects, c) && (e.Join? ==> e.store in c.replicas)
    ensures Genuine(base, effects + StepEffect(c, e), Next(c, e))
  {
    var effects' := effects + StepEffect(c, e);
    MoreWrites(base, effects, StepEffect(c, e), c);
    match e
    case Write(i, op, copies) => ReceiveIsGenuine(base, effects', c, i, op, copies);
    case Deliver(l, j, copies) =>
      WithoutIsGenuine(effects', c.links[l], j);
      var c1 := c.(links := c.links[l := Without(c.links[l], j)]);
      ReceiveIsGenuine(base, effects', c1, l + 1, c.links[l][j], copies);
    case Settle(j, copies) =>
      WithoutIsGenuine(effects', c.leftover, j);
      ReceiveIsGenuine(base, effects', c.(leftover := Without(c.leftover, j)), 0, c.leftover[j], copies);
    case _ =>
  }

  lemma {:induction false} RunIsGenuine(base: Store, effects: seq<Op>, c: Chain, es: seq<Event>)
    requires WellFormed(c) && CanRun(c, es) && JoinsCopy(c, es) && Genuine(base, effects, c)
    ensures Genuine(base, effects + EffectiveWrites(c, es), Exec(c, es))
    decreases |es|
  {
    if es == [] {
      assert effects + [] == effects;
    } else {
      StepIsGenuine(base, effects, c, es[0]);
      var c1 := Next(c, es[0]);
      RunIsGenuine(base, effects + StepEffect(c, es[0]), c1, es[1..]);
      Reassociate(effects, StepEffect(c, es[0]), EffectiveWrites(c1, es[1..]));
    }
  }

  /** What a GET at the tail finds under k was there at the start or was left by a write to k that
      took effect at some server. */
  lemma ReadsAreNotInvented(n: nat, base: Store, es: seq<Event>, k: CString)
    requires n > 0 && CanRun(Start(n, base), es) && JoinsCopy(Start(n, base), es)
    ensures FromWrites(base, EffectiveWrites(Start(n, base), es), k, At(Tail(Exec(Start(n, base), es)), k))
  {
    var c, effects := Start(n, base), EffectiveWrites(Start(n, base), es);
    forall x ensures FromWrites(base, [], x, At(base, x)) {
    }
    assert Genuine(base, [], c);
    RunIsGenuine(base, [], c, es);
    assert [] + effects == effects;
    assert GenuineStore(base, effects, Tail(Exec(c, es)));
  }
}
