/** The update propagation invariant of chain replication: as long as links deliver in order
    and the head takes no write before it has handled what a lost head left, every replica
    holds what some prefix of the effective writes produces. The chain is instrumented with
    the write history, with how much of it each replica has applied, and with the position in
    it of every message; the instrumentation does not influence the chain. */
module Histories {
  import opened CStrings
  import opened Entries
  import opened Operations
  import opened Chains
  import HeadLosses

  datatype Traced = Traced(chain: Chain, history: seq<Op>, applied: seq<nat>, tags: seq<seq<nat>>, leftTags: seq<nat>)

  /** Replica i has no successor, or tells it of the operation, or there is nothing to tell. */
  predicate Tells(c: Chain, i: nat, op: Op, copies: nat)
    requires WellFormed(c) && i < |c.replicas|
  {
    copies > 0 || i == |c.replicas| - 1 || !Effective(c.replicas[i], op)
  }

  /** Queues are handled in order; effective writes enter at a head with no leftovers; what takes
      effect is passed on; a middle server is lost with nothing under way to it; whoever joins has
      a copy of the tail. */
  predicate Orderly(c: Chain, e: Event)
    requires WellFormed(c) && Enabled(c, e)
  {
    match e
    case Write(i, op, copies) =>
      Tells(c, i, op, copies) && (Effective(c.replicas[i], op) ==> i == 0 && c.leftover == [])
    case Deliver(l, j, copies) => j == 0 && Tells(c, l + 1, c.links[l][0], copies)
    case Settle(j, copies) => j == 0 && Tells(c, 0, c.leftover[0], copies)
    case LoseMiddle(i) => c.links[i - 1] == []
    case Join(s) => s == Tail(c)
    case _ => true
  }

  predicate Shaped(t: Traced) {
    && WellFormed(t.chain) && |t.applied| == |t.chain.replicas| && |t.tags| == |t.chain.links|
    && (forall i :: 0 <= i < |t.applied| ==> t.applied[i] <= |t.history|)
    && (forall i :: 0 <= i < |t.tags| ==> |t.tags[i]| == |t.chain.links[i]|)
    && |t.leftTags| == |t.chain.leftover|
  }

  function Tags(t: Store, op: Op, tag: nat, copies: nat): seq<nat> {
    if Effective(t, op) then seq(copies, _ => tag) else []
  }

  /** Replica i handles the operation at position tag of the history. */
  function ReceiveTraced(t: Traced, i: nat, op: Op, tag: nat, copies: nat): (t': Traced)
    requires WellFormed(t.chain) && i < |t.applied| == |t.chain.replicas| && |t.tags| == |t.chain.links|
  {
    var c := t.chain;
    t.(chain := Receive(c, i, op, copies),
       applied := t.applied[i := if Effective(c.replicas[i], op) && t.applied[i] <= tag then tag + 1 else t.applied[i]],
       tags := if i < |t.tags| then t.tags[i := t.tags[i] + Tags(c.replicas[i], op, tag, copies)] else t.tags)
  }

  function Appended(t: Traced, i: nat, op: Op): Traced
    requires WellFormed(t.chain) && i < |t.chain.replicas|
  {
    t.(history := if Effective(t.chain.replicas[i], op) then t.history + [op] else t.history)
  }

  function Taken(t: Traced, l: nat): Traced
    requires Shaped(t) && l < |t.tags| && t.tags[l] != []
  {
    t.(chain := t.chain.(links := t.chain.links[l := Without(t.chain.links[l], 0)]),
       tags := t.tags[l := t.tags[l][1..]])
  }

  function LeftoverTaken(t: Traced): Traced
    requires Shaped(t) && t.leftTags != []
  {
    t.(chain := t.chain.(leftover := Without(t.chain.leftover, 0)), leftTags := t.leftTags[1..])
  }

  /** The instrumented step. With the head go the leftovers it had not handled; what it had sent
      stays under way. */
  function NextTraced(t: Traced, e: Event): (t': Traced)
    requires Shaped(t) && Enabled(t.chain, e) && Orderly(t.chain, e)
    ensures t'.chain == Next(t.chain, e)
  {
    var c := t.chain;
    match e
    case Write(i, op, copies) => ReceiveTraced(Appended(t, i, op), i, op, |t.history|, copies)
    case Deliver(l, _, copies) => ReceiveTraced(Taken(t, l), l + 1, c.links[l][0], t.tags[l][0], copies)
    case Settle(_, copies) => ReceiveTraced(LeftoverTaken(t), 0, c.leftover[0], t.leftTags[0], copies)
    case LoseHead => Traced(Next(c, e), t.history[..t.applied[0]], t.applied[1..], t.tags[1..], t.tags[0])
    case LoseTail => t.(chain := Next(c, e), applied := t.applied[..|t.applied| - 1], tags := t.tags[..|t.tags| - 1])
    case LoseMiddle(i) => t.(chain := Next(c, e), applied := Without(t.applied, i), tags := Without(t.tags, i - 1))
    case Join(_) =>
      t.(chain := Next(c, e), applied := t.applied + [t.applied[|t.applied| - 1]], tags := t.tags + [[]])
    case Skip => t
  }

  // ---- the invariant ----

  /** The messages of a link carry on where the successor stands and stop where the predecessor
      stands: each is the next write of the history or a repeat of the one before. */
  predicate Bridges(from: nat, tags: seq<nat>, to: nat)
    decreases |tags|
  {
    if tags == [] then from == to
    else (tags[0] + 1 == from || tags[0] == from) && Bridges(tags[0] + 1, tags[1..], to)
  }

  function After(base: Store, history: seq<Op>, n: nat): Store
    requires n <= |history|
  {
    ApplyAll(base, history[..n])
  }

  /** Replica i holds what the first applied[i] writes produce. */
  ghost predicate HoldsPrefix(t: Traced, base: Store, i: nat)
    requires Shaped(t) && i < |t.applied|
  {
    t.chain.replicas[i] == After(base, t.history, t.applied[i])
  }

  ghost predicate LinkTraced(t: Traced, i: nat)
    requires Shaped(t) && i < |t.tags|
  {
    && Bridges(t.applied[i + 1], t.tags[i], t.applied[i])
    && Carries(t.tags[i], t.chain.links[i], t.history)
  }

  /** The messages are the writes at these positions of the history. */
  ghost predicate Carries(tags: seq<nat>, ops: seq<Op>, history: seq<Op>) {
    |tags| == |ops| && forall m :: 0 <= m < |tags| ==> tags[m] < |history| && ops[m] == history[tags[m]]
  }

  ghost predicate AllEffective(base: Store, history: seq<Op>) {
    forall n :: 0 <= n < |history| ==> Effective(After(base, history, n), history[n])
  }

  /** The leftovers carry on where the head stands and stop at the end of the history. */
  ghost predicate HeadTraced(t: Traced)
    requires Shaped(t)
  {
    Bridges(t.applied[0], t.leftTags, |t.history|) && Carries(t.leftTags, t.chain.leftover, t.history)
  }

  ghost predicate Invariant(t: Traced, base: Store) {
    && Shaped(t) && HeadTraced(t)
    && AllEffective(base, t.history)
    && (forall i :: 0 <= i < |t.applied| ==> HoldsPrefix(t, base, i))
    && (forall i :: 0 <= i < |t.tags| ==> LinkTraced(t, i))
  }

  lemma {:induction false} BridgesAppend(from: nat, tags: seq<nat>, to: nat, tag: nat, copies: nat)
    requires Bridges(from, tags, to) && (tag + 1 == to || tag == to) && copies > 0
    ensures Bridges(from, tags + seq(copies, _ => tag), tag + 1)
    decreases |tags|, copies
  {
    var more := seq(copies, _ => tag);
    if tags != [] {
      BridgesAppend(tags[0] + 1, tags[1..], to, tag, copies);
      assert (tags + more)[1..] == tags[1..] + more;
    } else {
      assert tags + more == more;
      if copies > 1 {
        BridgesAppend(tag + 1, [], tag + 1, tag, copies - 1);
        assert more[1..] == [] + seq(copies - 1, _ => tag);
      } else {
        assert more[1..] == [];
      }
    }
  }

  lemma {:induction false} BridgesOrder(from: nat, tags: seq<nat>, to: nat)
    requires Bridges(from, tags, to)
    ensures from <= to
    ensures forall m :: 0 <= m < |tags| ==> tags[m] < to
    decreases |tags|
  {
    if tags != [] {
      BridgesOrder(tags[0] + 1, tags[1..], to);
      assert forall m :: 0 < m < |tags| ==> tags[m] == tags[1..][m - 1];
    }
  }

  lemma AfterStep(base: Store, history: seq<Op>, n: nat)
    requires n < |history|
    ensures After(base, history, n + 1) == Apply(After(base, history, n), history[n])
  {
    assert history[..n + 1] == history[..n] + [history[n]];
    ApplyAllSnoc(base, history[..n], history[n]);
  }

  lemma AfterPrefix(base: Store, history: seq<Op>, more: seq<Op>, n: nat)
    requires n <= |history|
    ensures After(base, history + more, n) == After(base, history, n)
  {
    assert (history + more)[..n] == history[..n];
  }

  // ---- a replica handles the next write, or a repeat ----

  /** What handling position tag does to a replica that has applied n writes. */
  lemma HandleNextOrRepeat(base: Store, history: seq<Op>, n: nat, tag: nat)
    requires AllEffective(base, history) && n <= |history| && tag < |history|
    requires tag == n || tag + 1 == n
    ensures var t := After(base, history, n);
            && Apply(t, history[tag]) == After(base, history, tag + 1)
            && (tag == n ==> Effective(t, history[tag]))
  {
    AfterStep(base, history, tag);
    if tag + 1 == n {
      ApplyTwice(After(base, history, tag), history[tag]);
    }
  }

  lemma AppendForwarded(s: Store, from: nat, tags: seq<nat>, ops: seq<Op>, to: nat,
                        history: seq<Op>, tag: nat, copies: nat)
    requires Bridges(from, tags, to) && Carries(tags, ops, history)
    requires tag < |history| && ((tag == to && Effective(s, history[tag])) || tag + 1 == to)
    requires copies > 0 || !Effective(s, history[tag])
    ensures Bridges(from, tags + Tags(s, history[tag], tag, copies), tag + 1)
    ensures Carries(tags + Tags(s, history[tag], tag, copies), ops + Forwarded(s, history[tag], copies), history)
  {
    if Effective(s, history[tag]) {
      BridgesAppend(from, tags, to, tag, copies);
    } else {
      assert tags + [] == tags && ops + [] == ops;
    }
  }

  /** Everything but replica i and its incoming link is in order, and what is still pending there
      carries on from position tag of the history. */
  ghost predicate Ready(t: Traced, base: Store, i: nat, tag: nat)
    requires Shaped(t) && i < |t.applied|
  {
    && AllEffective(base, t.history) && tag < |t.history| && (tag == t.applied[i] || tag + 1 == t.applied[i])
    && (forall j :: 0 <= j < |t.applied| ==> HoldsPrefix(t, base, j))
    && (forall j :: 0 <= j < |t.tags| && j != i - 1 ==> LinkTraced(t, j))
    && (i > 0 ==> Bridges(tag + 1, t.tags[i - 1], t.applied[i - 1]))
    && (i > 0 ==> Carries(t.tags[i - 1], t.chain.links[i - 1], t.history))
  }

  lemma ReceiveMovesTo(t: Traced, base: Store, i: nat, tag: nat, copies: nat)
    requires Shaped(t) && i < |t.applied| && Ready(t, base, i, tag)
    ensures var t' := ReceiveTraced(t, i, t.history[tag], tag, copies);
            && Shaped(t') && t'.applied == t.applied[i := tag + 1]
            && (forall j :: 0 <= j < |t'.applied| ==> HoldsPrefix(t', base, j))
  {
    var t' := ReceiveTraced(t, i, t.history[tag], tag, copies);
    assert HoldsPrefix(t, base, i);
    HandleNextOrRepeat(base, t.history, t.applied[i], tag);
    forall j | 0 <= j < |t'.applied| ensures HoldsPrefix(t', base, j) {
      assert HoldsPrefix(t, base, j);
    }
  }

  /** The core of every write and delivery: replica i handles the message at position tag. */
  lemma ReceiveKeepsInvariant(t: Traced, base: Store, i: nat, tag: nat, copies: nat)
    requires Shaped(t) && i < |t.applied| && Ready(t, base, i, tag) && Tells(t.chain, i, t.history[tag], copies)
    ensures var t' := ReceiveTraced(t, i, t.history[tag], tag, copies);
            && Shaped(t') && t'.applied == t.applied[i := tag + 1]
            && (forall j :: 0 <= j < |t'.applied| ==> HoldsPrefix(t', base, j))
            && (forall j :: 0 <= j < |t'.tags| ==> LinkTraced(t', j))
  {
    var t' := ReceiveTraced(t, i, t.history[tag], tag, copies);
    ReceiveMovesTo(t, base, i, tag, copies);
    forall j | 0 <= j < |t'.tags| ensures LinkTraced(t', j) {
      if j == i {
        OutgoingStaysTraced(t, base, i, tag, copies);
      } else if j != i - 1 {
        assert LinkTraced(t, j);
      }
    }
  }

  lemma OutgoingStaysTraced(t: Traced, base: Store, i: nat, tag: nat, copies: nat)
    requires Shaped(t) && i < |t.tags| && Ready(t, base, i, tag) && Tells(t.chain, i, t.history[tag], copies)
    ensures var t' := ReceiveTraced(t, i, t.history[tag], tag, copies); Shaped(t') && LinkTraced(t', i)
  {
    ReceiveMovesTo(t, base, i, tag, copies);
    assert LinkTraced(t, i) && HoldsPrefix(t, base, i);
    HandleNextOrRepeat(base, t.history, t.applied[i], tag);
    AppendForwarded(t.chain.replicas[i], t.applied[i + 1], t.tags[i], t.chain.links[i], t.applied[i],
                    t.history, tag, copies);
  }

  /** What is left over at the head carries on after replica i has handled position tag. */
  ghost predicate HeadReady(t: Traced, i: nat, tag: nat)
    requires Shaped(t)
  {
    && Bridges(if i == 0 then tag + 1 else t.applied[0], t.leftTags, |t.history|)
    && Carries(t.leftTags, t.chain.leftover, t.history)
  }

  lemma ReceiveGivesInvariant(t: Traced, base: Store, i: nat, tag: nat, copies: nat)
    requires Shaped(t) && i < |t.applied| && Ready(t, base, i, tag) && HeadReady(t, i, tag)
    requires Tells(t.chain, i, t.history[tag], copies)
    ensures var t' := ReceiveTraced(t, i, t.history[tag], tag, copies);
            Invariant(t', base) && t'.applied == t.applied[i := tag + 1]
  {
    ReceiveKeepsInvariant(t, base, i, tag, copies);
  }

  lemma EffectiveWriteKeepsInvariant(t: Traced, base: Store, op: Op, copies: nat)
    requires Invariant(t, base) && t.chain.leftover == [] && Effective(t.chain.replicas[0], op)
    requires Tells(t.chain, 0, op, copies)
    ensures Invariant(NextTraced(t, Write(0, op, copies)), base)
    ensures NextTraced(t, Write(0, op, copies)).applied == t.applied[0 := |t.history| + 1]
  {
    assert HoldsPrefix(t, base, 0);
    assert t.history[..|t.history|] == t.history;
    var t1 := Appended(t, 0, op);
    forall n | 0 <= n < |t1.history| ensures Effective(After(base, t1.history, n), t1.history[n]) {
      AfterPrefix(base, t.history, [op], n);
    }
    forall j | 0 <= j < |t1.applied| ensures HoldsPrefix(t1, base, j) {
      assert HoldsPrefix(t, base, j);
      AfterPrefix(base, t.history, [op], t.applied[j]);
    }
    forall j | 0 <= j < |t1.tags| ensures LinkTraced(t1, j) {
      assert LinkTraced(t, j);
    }
    ReceiveGivesInvariant(t1, base, 0, |t.history|, copies);
  }

  lemma IneffectiveWriteChangesNothing(t: Traced, i: nat, op: Op, copies: nat)
    requires Shaped(t) && i < |t.applied| && !Effective(t.chain.replicas[i], op)
    ensures NextTraced(t, Write(i, op, copies)) == t
  {
    IneffectiveChangesNothing(t.chain.replicas[i], op);
    var t' := NextTraced(t, Write(i, op, copies));
    assert t'.chain.replicas == t.chain.replicas;
    if i < |t.tags| {
      assert t.tags[i] + [] == t.tags[i] && t.chain.links[i] + [] == t.chain.links[i];
    }
  }

  lemma DeliverKeepsInvariant(t: Traced, base: Store, l: nat, copies: nat)
    requires Invariant(t, base) && l < |t.tags| && t.tags[l] != []
    requires Tells(t.chain, l + 1, t.chain.links[l][0], copies)
    ensures Invariant(NextTraced(t, Deliver(l, 0, copies)), base)
    ensures NextTraced(t, Deliver(l, 0, copies)).applied == t.applied[l + 1 := t.tags[l][0] + 1]
  {
    TakenKeeps(t, base, l);
    DeliverUnfolds(t, l, copies);
    var t1, tag := Taken(t, l), t.tags[l][0];
    assert Tells(t1.chain, l + 1, t1.history[tag], copies);
    ReceiveGivesInvariant(t1, base, l + 1, tag, copies);
  }

  lemma DeliverUnfolds(t: Traced, l: nat, copies: nat)
    requires Shaped(t) && l < |t.tags| && t.tags[l] != []
    requires t.tags[l][0] < |t.history| && t.chain.links[l][0] == t.history[t.tags[l][0]]
    requires Tells(t.chain, l + 1, t.chain.links[l][0], copies)
    ensures NextTraced(t, Deliver(l, 0, copies)) ==
            ReceiveTraced(Taken(t, l), l + 1, Taken(t, l).history[t.tags[l][0]], t.tags[l][0], copies)
  {
  }

  lemma TakenKeeps(t: Traced, base: Store, l: nat)
    requires Invariant(t, base) && l < |t.tags| && t.tags[l] != []
    ensures var t1, tag := Taken(t, l), t.tags[l][0];
            && Shaped(t1) && HeadReady(t1, l + 1, tag) && tag < |t.history| && t.chain.links[l][0] == t1.history[tag]
            && t1.applied == t.applied && Ready(t1, base, l + 1, tag)
  {
    var t1 := Taken(t, l);
    assert LinkTraced(t, l);
    assert Without(t.chain.links[l], 0) == t.chain.links[l][1..];
    forall j | 0 <= j < |t1.applied| ensures HoldsPrefix(t1, base, j) { assert HoldsPrefix(t, base, j); }
    forall j | 0 <= j < |t1.tags| && j != l ensures LinkTraced(t1, j) { assert LinkTraced(t, j); }
  }

  lemma SettleKeepsInvariant(t: Traced, base: Store, copies: nat)
    requires Invariant(t, base) && t.leftTags != [] && Tells(t.chain, 0, t.chain.leftover[0], copies)
    ensures Invariant(NextTraced(t, Settle(0, copies)), base)
    ensures NextTraced(t, Settle(0, copies)).applied == t.applied[0 := t.leftTags[0] + 1]
  {
    LeftoverTakenKeeps(t, base);
    ReceiveGivesInvariant(LeftoverTaken(t), base, 0, t.leftTags[0], copies);
  }

  lemma LeftoverTakenKeeps(t: Traced, base: Store)
    requires Invariant(t, base) && t.leftTags != []
    ensures var t1, tag := LeftoverTaken(t), t.leftTags[0];
            && Shaped(t1) && tag < |t.history| && t.chain.leftover[0] == t1.history[tag]
            && t1.applied == t.applied && Ready(t1, base, 0, tag) && HeadReady(t1, 0, tag)
  {
    var t1 := LeftoverTaken(t);
    assert Without(t.chain.leftover, 0) == t.chain.leftover[1..];
    forall j | 0 <= j < |t1.applied| ensures HoldsPrefix(t1, base, j) { assert HoldsPrefix(t, base, j); }
    forall j | 0 <= j < |t1.tags| ensures LinkTraced(t1, j) { assert LinkTraced(t, j); }
  }

  lemma LoseHeadKeepsInvariant(t: Traced, base: Store)
    requires Invariant(t, base) && |t.applied| > 1
    ensures Invariant(NextTraced(t, LoseHead), base)
  {
    var t' := NextTraced(t, LoseHead);
    var kept := t.applied[0];
    forall i: nat | 0 < i < |t.applied| ensures t.applied[i] <= kept {
      AppliedShrinks(t, base, 0, i);
    }
    assert t.history == t'.history + t.history[kept..];
    forall n | 0 <= n < |t'.history| ensures Effective(After(base, t'.history, n), t'.history[n]) {
      AfterPrefix(base, t'.history, t.history[kept..], n);
    }
    forall j | 0 <= j < |t'.applied| ensures HoldsPrefix(t', base, j) {
      assert HoldsPrefix(t, base, j + 1);
      AfterPrefix(base, t'.history, t.history[kept..], t'.applied[j]);
    }
    assert LinkTraced(t, 0);
    BridgesOrder(t.applied[1], t.tags[0], kept);
    LoseHeadKeepsTags(t, base);
  }

  lemma LoseHeadKeepsTags(t: Traced, base: Store)
    requires Invariant(t, base) && |t.applied| > 1
    requires Shaped(NextTraced(t, LoseHead))
    ensures var t' := NextTraced(t, LoseHead); forall j :: 0 <= j < |t'.tags| ==> LinkTraced(t', j)
  {
    var t' := NextTraced(t, LoseHead);
    forall j | 0 <= j < |t'.tags| ensures LinkTraced(t', j) {
      assert LinkTraced(t, j + 1);
      BridgesOrder(t'.applied[j + 1], t'.tags[j], t'.applied[j]);
    }
  }

  lemma LoseMiddleKeepsShape(t: Traced, base: Store, i: nat)
    requires Invariant(t, base) && 0 < i < |t.applied| - 1 && t.chain.links[i - 1] == []
    ensures var t' := NextTraced(t, LoseMiddle(i));
            Shaped(t') && forall j :: 0 <= j < |t'.applied| ==> HoldsPrefix(t', base, j)
  {
    var t' := NextTraced(t, LoseMiddle(i));
    forall j | 0 <= j < |t'.applied| ensures HoldsPrefix(t', base, j) {
      assert HoldsPrefix(t, base, if j < i then j else j + 1);
    }
  }

  lemma LoseMiddleKeepsTags(t: Traced, base: Store, i: nat, j: nat)
    requires Invariant(t, base) && 0 < i < |t.applied| - 1 && t.chain.links[i - 1] == []
    requires Shaped(NextTraced(t, LoseMiddle(i))) && j < |t.tags| - 1
    ensures LinkTraced(NextTraced(t, LoseMiddle(i)), j)
  {
    assert LinkTraced(t, i - 1) && t.applied[i] == t.applied[i - 1];
    assert LinkTraced(t, if j < i - 1 then j else j + 1);
  }

  lemma LoseMiddleKeepsInvariant(t: Traced, base: Store, i: nat)
    requires Invariant(t, base) && 0 < i < |t.applied| - 1 && t.chain.links[i - 1] == []
    ensures Invariant(NextTraced(t, LoseMiddle(i)), base)
  {
    var t' := NextTraced(t, LoseMiddle(i));
    LoseMiddleKeepsShape(t, base, i);
    forall j | 0 <= j < |t'.tags| ensures LinkTraced(t', j) {
      LoseMiddleKeepsTags(t, base, i, j);
    }
  }

  lemma StepKeepsInvariant(t: Traced, base: Store, e: Event)
    requires Invariant(t, base) && Enabled(t.chain, e) && Orderly(t.chain, e)
    ensures Invariant(NextTraced(t, e), base)
  {
    match e
    case Write(i, op, copies) =>
      if Effective(t.chain.replicas[i], op) {
        EffectiveWriteKeepsInvariant(t, base, op, copies);
      } else {
        IneffectiveWriteChangesNothing(t, i, op, copies);
      }
    case Deliver(l, _, copies) => DeliverKeepsInvariant(t, base, l, copies);
    case Settle(_, copies) => SettleKeepsInvariant(t, base, copies);
    case LoseHead => LoseHeadKeepsInvariant(t, base);
    case LoseMiddle(i) => LoseMiddleKeepsInvariant(t, base, i);
    case LoseTail =>
      var t' := NextTraced(t, e);
      forall j | 0 <= j < |t'.applied| ensures HoldsPrefix(t', base, j) { assert HoldsPrefix(t, base, j); }
      forall j | 0 <= j < |t'.tags| ensures LinkTraced(t', j) { assert LinkTraced(t, j); }
    case Join(_) => JoinKeepsInvariant(t, base);
    case Skip =>
  }

  lemma JoinKeepsInvariant(t: Traced, base: Store)
    requires Invariant(t, base)
    ensures Invariant(NextTraced(t, Join(Tail(t.chain))), base)
  {
    var t' := NextTraced(t, Join(Tail(t.chain)));
    var last := |t.applied| - 1;
    forall j | 0 <= j < |t'.applied| ensures HoldsPrefix(t', base, j) {
      assert HoldsPrefix(t, base, if j <= last then j else last);
    }
    forall j | 0 <= j < |t'.tags| ensures LinkTraced(t', j) { assert j < last ==> LinkTraced(t, j); }
  }

  /** The messages of a queue take a replica from its prefix to where the queue ends. */
  lemma {:induction false} QueueCarriesOn(base: Store, history: seq<Op>, from: nat, tags: seq<nat>, ops: seq<Op>,
                                          to: nat)
    requires AllEffective(base, history) && from <= |history| && to <= |history|
    requires Bridges(from, tags, to) && Carries(tags, ops, history)
    ensures ApplyAll(After(base, history, from), ops) == After(base, history, to)
    decreases |tags|
  {
    if tags != [] {
      HandleNextOrRepeat(base, history, from, tags[0]);
      QueueCarriesOn(base, history, tags[0] + 1, tags[1..], ops[1..], to);
    }
  }

  /** The invariant implies that of the plain chain, and says what the head is going to hold. */
  lemma InvariantLinks(t: Traced, base: Store)
    requires Invariant(t, base)
    ensures LinksHold(t.chain) && HeadLosses.Intent(t.chain) == ApplyAll(base, t.history)
  {
    forall i | 0 <= i < |t.tags| ensures LinkHolds(t.chain, i) {
      assert LinkTraced(t, i) && HoldsPrefix(t, base, i) && HoldsPrefix(t, base, i + 1);
      QueueCarriesOn(base, t.history, t.applied[i + 1], t.tags[i], t.chain.links[i], t.applied[i]);
    }
    assert HoldsPrefix(t, base, 0);
    QueueCarriesOn(base, t.history, t.applied[0], t.leftTags, t.chain.leftover, |t.history|);
    assert t.history[..|t.history|] == t.history;
  }

  /** Prefixes never grow from the head towards the tail. */
  lemma {:induction false} AppliedShrinks(t: Traced, base: Store, i: nat, j: nat)
    requires Invariant(t, base) && i <= j < |t.applied|
    ensures t.applied[j] <= t.applied[i]
    decreases j - i
  {
    if i < j {
      AppliedShrinks(t, base, i, j - 1);
      assert LinkTraced(t, j - 1);
      BridgesOrder(t.applied[j], t.tags[j - 1], t.applied[j - 1]);
    }
  }

  // ---- whole runs ----

  predicate OrderlyRun(c: Chain, es: seq<Event>)
    requires WellFormed(c) && CanRun(c, es)
    decreases |es|
  {
    es == [] || (Orderly(c, es[0]) && OrderlyRun(Next(c, es[0]), es[1..]))
  }

  /** Heads are lost only when they have handled what an earlier one left. */
  predicate SettledRun(c: Chain, es: seq<Event>)
    requires WellFormed(c) && CanRun(c, es)
    decreases |es|
  {
    es == [] || ((es[0].LoseHead? ==> c.leftover == []) && SettledRun(Next(c, es[0]), es[1..]))
  }

  function StartTraced(n: nat, base: Store): Traced
    requires n > 0
  {
    Traced(Start(n, base), [], seq(n, _ => 0), seq(n - 1, _ => []), [])
  }

  ghost function ExecTraced(t: Traced, base: Store, es: seq<Event>): (t': Traced)
    requires Invariant(t, base) && CanRun(t.chain, es) && OrderlyRun(t.chain, es)
    ensures Invariant(t', base) && t'.chain == Exec(t.chain, es)
    decreases |es|
  {
    if es == [] then t
    else
      StepKeepsInvariant(t, base, es[0]);
      ExecTraced(NextTraced(t, es[0]), base, es[1..])
  }

  lemma StartHolds(n: nat, base: Store)
    requires n > 0
    ensures Invariant(StartTraced(n, base), base)
  {
    var t := StartTraced(n, base);
    assert t.history[..0] == [];
    assert forall i :: 0 <= i < n ==> HoldsPrefix(t, base, i);
  }

  lemma StepGrowsHistory(t: Traced, e: Event)
    requires Shaped(t) && Enabled(t.chain, e) && Orderly(t.chain, e) && !e.LoseHead?
    ensures NextTraced(t, e).history == t.history + StepEffect(t.chain, e)
  {
  }

  lemma StepHistory(t: Traced, base: Store, e: Event)
    requires Invariant(t, base) && Enabled(t.chain, e) && Orderly(t.chain, e)
    requires e.LoseHead? ==> t.chain.leftover == []
    ensures NextTraced(t, e).history == t.history + StepEffect(t.chain, e)
  {
    if e.LoseHead? {
      assert t.history[..|t.history|] == t.history;
    } else {
      StepGrowsHistory(t, e);
    }
  }

  /** Heads may be lost: as long as each had handled its leftovers, the history is the list of
      effective writes in order. */
  lemma {:induction false} HistoryIsEffectiveWrites(t: Traced, base: Store, es: seq<Event>)
    requires Invariant(t, base) && CanRun(t.chain, es) && OrderlyRun(t.chain, es) && SettledRun(t.chain, es)
    ensures ExecTraced(t, base, es).history == t.history + EffectiveWrites(t.chain, es)
    decreases |es|
  {
    if es != [] {
      StepKeepsInvariant(t, base, es[0]);
      StepHistory(t, base, es[0]);
      var t1 := NextTraced(t, es[0]);
      HistoryIsEffectiveWrites(t1, base, es[1..]);
      Reassociate(t.history, StepEffect(t.chain, es[0]), EffectiveWrites(t1.chain, es[1..]));
    } else {
      assert t.history + [] == t.history;
    }
  }

  // ---- histories with gaps ----

  lemma {:induction false} PrefixIsSubsequence(a: seq<Op>, b: seq<Op>, n: nat)
    requires Subsequence(a, b) && n <= |a|
    ensures Subsequence(a[..n], b)
    decreases |b|
  {
    if n < |a| {
      var rest := b[..|b| - 1];
      if Subsequence(a, rest) {
        PrefixIsSubsequence(a, rest, n);
      } else {
        PrefixIsSubsequence(a[..|a| - 1], rest, n);
        assert a[..|a| - 1][..n] == a[..n];
      }
    } else {
      assert a[..n] == a;
    }
  }

  lemma BothExtended(a: seq<Op>, b: seq<Op>, more: seq<Op>)
    requires Subsequence(a, b) && |more| <= 1
    ensures Subsequence(a + more, b + more)
  {
    if more == [] {
      assert a + more == a && b + more == b;
    } else {
      assert (a + more)[..|a|] == a && (b + more)[..|b|] == b;
    }
  }

  lemma StepIsSubsequence(t: Traced, e: Event, effects: seq<Op>)
    requires Shaped(t) && Enabled(t.chain, e) && Orderly(t.chain, e) && Subsequence(t.history, effects)
    ensures Subsequence(NextTraced(t, e).history, effects + StepEffect(t.chain, e))
  {
    if e.LoseHead? {
      PrefixIsSubsequence(t.history, effects, t.applied[0]);
      assert effects + [] == effects;
    } else {
      StepGrowsHistory(t, e);
      BothExtended(t.history, effects, StepEffect(t.chain, e));
    }
  }

  /** Whatever heads are lost, the history is made of effective writes, in the order in which
      they took effect. */
  lemma {:induction false} HistoryWasEffective(t: Traced, base: Store, es: seq<Event>, effects: seq<Op>)
    requires Invariant(t, base) && CanRun(t.chain, es) && OrderlyRun(t.chain, es)
    requires Subsequence(t.history, effects)
    ensures Subsequence(ExecTraced(t, base, es).history, effects + EffectiveWrites(t.chain, es))
    decreases |es|
  {
    if es != [] {
      StepKeepsInvariant(t, base, es[0]);
      StepIsSubsequence(t, es[0], effects);
      var t1, more := NextTraced(t, es[0]), StepEffect(t.chain, es[0]);
      HistoryWasEffective(t1, base, es[1..], effects + more);
      Reassociate(effects, more, EffectiveWrites(t1.chain, es[1..]));
    } else {
      assert effects + [] == effects;
    }
  }

  // ---- where the replicas are ----

  /** The store is what the first p writes produce. */
  ghost predicate Reached(base: Store, history: seq<Op>, p: nat, s: Store) {
    p <= |history| && s == After(base, history, p)
  }

  /** The stores are at points p and q of this history. */
  ghost predicate Passes(base: Store, h: seq<Op>, p: nat, first: Store, q: nat, second: Store) {
    p <= q && Reached(base, h, p, first) && Reached(base, h, q, second)
  }

  /** The first store is at a point of this history that the second has reached or passed. */
  ghost predicate InOrder(base: Store, h: seq<Op>, first: Store, second: Store) {
    exists p: nat, q: nat :: Passes(base, h, p, first, q, second)
  }

  lemma PlacesInOrder(t: Traced, base: Store, i: nat, j: nat)
    requires Invariant(t, base) && i <= j < |t.applied|
    ensures InOrder(base, t.history, t.chain.replicas[j], t.chain.replicas[i])
  {
    AppliedShrinks(t, base, i, j);
    assert HoldsPrefix(t, base, i) && HoldsPrefix(t, base, j);
    assert Passes(base, t.history, t.applied[j], t.chain.replicas[j], t.applied[i], t.chain.replicas[i]);
  }

  /** In every reachable state replica j holds what some prefix of the run's effective writes
      produces, replica i, nearer the head, what as long a prefix or a longer one produces, and
      a head without leftovers what all of them produce. */
  lemma ReplicasHoldPrefixes(n: nat, base: Store, es: seq<Event>, i: nat, j: nat)
    requires n > 0 && CanRun(Start(n, base), es)
    requires OrderlyRun(Start(n, base), es) && SettledRun(Start(n, base), es)
    requires i <= j < |Exec(Start(n, base), es).replicas|
    ensures var c, h := Exec(Start(n, base), es), EffectiveWrites(Start(n, base), es);
            InOrder(base, h, c.replicas[j], c.replicas[i]) && HeadLosses.Intent(c) == ApplyAll(base, h)
  {
    StartHolds(n, base);
    HistoryIsEffectiveWrites(StartTraced(n, base), base, es);
    var t := ExecTraced(StartTraced(n, base), base, es);
    assert t.history == EffectiveWrites(Start(n, base), es);
    PlacesInOrder(t, base, i, j);
    InvariantLinks(t, base);
  }

  /** h is what is left of the effective writes. */
  ghost predicate InOrderOfSome(base: Store, effects: seq<Op>, first: Store, second: Store, last: Store) {
    exists h :: Subsequence(h, effects) && InOrder(base, h, first, second) && last == ApplyAll(base, h)
  }

  /** Also when heads are lost with leftovers: the replicas are at points of one sequence of
      effective writes, in the order in which they took effect, and never further towards the tail;
      what the head is going to hold is where it ends. */
  lemma ReplicasInOrder(n: nat, base: Store, es: seq<Event>, i: nat, j: nat)
    requires n > 0 && CanRun(Start(n, base), es) && OrderlyRun(Start(n, base), es)
    requires i <= j < |Exec(Start(n, base), es).replicas|
    ensures var c, effects := Exec(Start(n, base), es), EffectiveWrites(Start(n, base), es);
            InOrderOfSome(base, effects, c.replicas[j], c.replicas[i], HeadLosses.Intent(c))
  {
    StartHolds(n, base);
    HistoryWasEffective(StartTraced(n, base), base, es, []);
    var t, effects := ExecTraced(StartTraced(n, base), base, es), EffectiveWrites(Start(n, base), es);
    assert [] + effects == effects;
    PlacesInOrder(t, base, i, j);
    InvariantLinks(t, base);
    assert InOrderOfSome(base, effects, t.chain.replicas[j], t.chain.replicas[i], HeadLosses.Intent(t.chain));
  }

  /** What the last of these writes to k left under k. */
  function LeftUnder(base: Store, writes: seq<Op>, k: CString): Option<Block> {
    match LastOn(writes, k) case None => At(base, k) case Some(op) => Written(op)
  }

  ghost predicate LeftBySome(base: Store, h: seq<Op>, k: CString, v: Option<Block>) {
    exists q: nat :: q <= |h| && v == LeftUnder(base, h[..q], k)
  }

  /** What a GET at the tail finds under k is what the last write to k among the first so many
      effective writes left there. */
  lemma ReadShowsEffectiveWrite(n: nat, base: Store, es: seq<Event>, k: CString)
    requires n > 0 && CanRun(Start(n, base), es)
    requires OrderlyRun(Start(n, base), es) && SettledRun(Start(n, base), es)
    ensures var c, h := Exec(Start(n, base), es), EffectiveWrites(Start(n, base), es);
            LeftBySome(base, h, k, At(Tail(c), k))
  {
    var c, h := Exec(Start(n, base), es), EffectiveWrites(Start(n, base), es);
    var last := |c.replicas| - 1;
    ReplicasHoldPrefixes(n, base, es, last, last);
    var p: nat, q: nat :| Passes(base, h, p, c.replicas[last], q, c.replicas[last]);
    ApplyAllAt(base, h[..q], k);
  }

  // ---- reads at the tail only move forward ----

  function TailApplied(t: Traced): nat
    requires Shaped(t)
  {
    t.applied[|t.applied| - 1]
  }

  /** The second history agrees with the first as far as n. */
  predicate SamePrefix(h1: seq<Op>, h2: seq<Op>, n: nat) {
    n <= |h1| && n <= |h2| && h1[..n] == h2[..n]
  }

  lemma SamePrefixTransitive(h1: seq<Op>, h2: seq<Op>, h3: seq<Op>, n: nat, m: nat)
    requires SamePrefix(h1, h2, n) && SamePrefix(h2, h3, m) && n <= m
    ensures SamePrefix(h1, h3, n)
  {
    assert h2[..n] == h2[..m][..n] == h3[..m][..n] == h3[..n];
  }

  /** Where replica i is after the step, if it is still there. */
  function Follow(c: Chain, e: Event, i: nat): Option<nat>
    requires WellFormed(c) && Enabled(c, e) && i < |c.replicas|
  {
    match e
    case LoseHead => if i == 0 then None else Some(i - 1)
    case LoseTail => if i == |c.replicas| - 1 then None else Some(i)
    case LoseMiddle(j) => if i == j then None else Some(if i < j then i else i - 1)
    case _ => Some(i)
  }

  lemma HandlingMovesForward(t: Traced, base: Store, e: Event)
    requires Invariant(t, base) && Enabled(t.chain, e) && Orderly(t.chain, e)
    requires e.Write? || e.Deliver? || e.Settle?
    ensures var t' := NextTraced(t, e);
            && Invariant(t', base) && |t'.applied| == |t.applied| && |t.history| <= |t'.history|
            && t'.history[..|t.history|] == t.history
            && forall i :: 0 <= i < |t.applied| ==> t.applied[i] <= t'.applied[i]
  {
    StepKeepsInvariant(t, base, e);
    match e
    case Write(i, op, copies) =>
      if Effective(t.chain.replicas[i], op) {
        EffectiveWriteKeepsInvariant(t, base, op, copies);
      } else {
        IneffectiveWriteChangesNothing(t, i, op, copies);
      }
    case Deliver(l, _, copies) =>
      DeliverKeepsInvariant(t, base, l, copies);
      assert LinkTraced(t, l);
    case Settle(_, copies) => SettleKeepsInvariant(t, base, copies);
  }

  /** A server that stays in the chain never goes back, and what it has applied stays history. */
  lemma NoServerGoesBack(t: Traced, base: Store, e: Event, i: nat)
    requires Invariant(t, base) && Enabled(t.chain, e) && Orderly(t.chain, e) && i < |t.applied|
    requires Follow(t.chain, e, i).Some?
    ensures var t', i' := NextTraced(t, e), Follow(t.chain, e, i).value;
            && Invariant(t', base) && i' < |t'.applied| && t.applied[i] <= t'.applied[i']
            && SamePrefix(t.history, t'.history, t.applied[i])
  {
    StepKeepsInvariant(t, base, e);
    if e.Write? || e.Deliver? || e.Settle? {
      HandlingMovesForward(t, base, e);
      var h' := NextTraced(t, e).history;
      assert h'[..|t.history|][..t.applied[i]] == h'[..t.applied[i]];
    } else if e.LoseHead? {
      AppliedShrinks(t, base, 0, i);
    }
  }

  /** The tail may be lost, or another server join behind it: what the tail has applied never
      shrinks, and stays history. */
  lemma StepKeepsTail(t: Traced, base: Store, e: Event)
    requires Invariant(t, base) && Enabled(t.chain, e) && Orderly(t.chain, e)
    ensures Invariant(NextTraced(t, e), base)
    ensures TailApplied(t) <= TailApplied(NextTraced(t, e))
    ensures SamePrefix(t.history, NextTraced(t, e).history, TailApplied(t))
  {
    var last := |t.applied| - 1;
    StepKeepsInvariant(t, base, e);
    if e.LoseTail? {
      AppliedShrinks(t, base, last - 1, last);
    } else {
      NoServerGoesBack(t, base, e, last);
    }
  }

  lemma {:induction false} RunKeepsTail(t: Traced, base: Store, es: seq<Event>)
    requires Invariant(t, base) && CanRun(t.chain, es) && OrderlyRun(t.chain, es)
    ensures TailApplied(t) <= TailApplied(ExecTraced(t, base, es))
    ensures SamePrefix(t.history, ExecTraced(t, base, es).history, TailApplied(t))
    decreases |es|
  {
    if es != [] {
      StepKeepsTail(t, base, es[0]);
      var t1 := NextTraced(t, es[0]);
      RunKeepsTail(t1, base, es[1..]);
      SamePrefixTransitive(t.history, t1.history, ExecTraced(t, base, es).history, TailApplied(t), TailApplied(t1));
    }
  }

  // ---- any number of reads ----

  /** What the tail holds in the states of a run. */
  function TailsAlong(c: Chain, es: seq<Event>): (tails: seq<Store>)
    requires WellFormed(c) && CanRun(c, es)
    ensures |tails| == |es| + 1
    decreases |es|
  {
    [Tail(c)] + if es == [] then [] else TailsAlong(Next(c, es[0]), es[1..])
  }

  /** The writes in effect so far, in the states of a run. */
  function EffectsAlong(c: Chain, es: seq<Event>, before: seq<Op>): (effects: seq<seq<Op>>)
    requires WellFormed(c) && CanRun(c, es)
    ensures |effects| == |es| + 1
    decreases |es|
  {
    [before] + if es == [] then [] else EffectsAlong(Next(c, es[0]), es[1..], before + StepEffect(c, es[0]))
  }

  /** How much of the history the tail has applied, in the states of a run. */
  ghost function PositionsAlong(t: Traced, base: Store, es: seq<Event>): (ps: seq<nat>)
    requires Invariant(t, base) && CanRun(t.chain, es) && OrderlyRun(t.chain, es)
    ensures |ps| == |es| + 1
    decreases |es|
  {
    if es == [] then [TailApplied(t)]
    else
      StepKeepsInvariant(t, base, es[0]);
      [TailApplied(t)] + PositionsAlong(NextTraced(t, es[0]), base, es[1..])
  }

  predicate NonDecreasing(ps: seq<nat>) {
    forall i, j :: 0 <= i <= j < |ps| ==> ps[i] <= ps[j]
  }

  /** The stores are, one after the other, at these points of the history. */
  ghost predicate Follows(base: Store, h: seq<Op>, stores: seq<Store>, ps: seq<nat>) {
    && |ps| == |stores| && NonDecreasing(ps)
    && forall i :: 0 <= i < |ps| ==> Reached(base, h, ps[i], stores[i])
  }

  /** Each point lies within what had taken effect by then. */
  ghost predicate Timely(h: seq<Op>, ps: seq<nat>, effects: seq<seq<Op>>) {
    && |ps| == |effects|
    && forall i :: 0 <= i < |ps| ==> ps[i] <= |h| && Subsequence(h[..ps[i]], effects[i])
  }

  lemma PrependFollows(base: Store, h: seq<Op>, s: Store, p: nat, stores: seq<Store>, ps: seq<nat>)
    requires Reached(base, h, p, s) && Follows(base, h, stores, ps) && (ps != [] ==> p <= ps[0])
    ensures Follows(base, h, [s] + stores, [p] + ps)
  {
  }

  lemma PrependTimely(h: seq<Op>, p: nat, ps: seq<nat>, now: seq<Op>, effects: seq<seq<Op>>)
    requires p <= |h| && Subsequence(h[..p], now) && Timely(h, ps, effects)
    ensures Timely(h, [p] + ps, [now] + effects)
  {
  }

  lemma {:induction false} PositionsFollow(t: Traced, base: Store, es: seq<Event>)
    requires Invariant(t, base) && CanRun(t.chain, es) && OrderlyRun(t.chain, es)
    ensures Follows(base, ExecTraced(t, base, es).history, TailsAlong(t.chain, es), PositionsAlong(t, base, es))
    ensures PositionsAlong(t, base, es)[0] == TailApplied(t)
    decreases |es|
  {
    var t', p := ExecTraced(t, base, es), TailApplied(t);
    RunKeepsTail(t, base, es);
    assert HoldsPrefix(t, base, |t.applied| - 1);
    assert Reached(base, t'.history, p, Tail(t.chain));
    if es != [] {
      StepKeepsTail(t, base, es[0]);
      var t1 := NextTraced(t, es[0]);
      PositionsFollow(t1, base, es[1..]);
      PrependFollows(base, t'.history, Tail(t.chain), p,
                     TailsAlong(t1.chain, es[1..]), PositionsAlong(t1, base, es[1..]));
    }
  }

  lemma {:induction false} PositionsAreTimely(t: Traced, base: Store, es: seq<Event>, before: seq<Op>)
    requires Invariant(t, base) && CanRun(t.chain, es) && OrderlyRun(t.chain, es) && Subsequence(t.history, before)
    ensures Timely(ExecTraced(t, base, es).history, PositionsAlong(t, base, es), EffectsAlong(t.chain, es, before))
    decreases |es|
  {
    var t', p := ExecTraced(t, base, es), TailApplied(t);
    RunKeepsTail(t, base, es);
    PrefixIsSubsequence(t.history, before, p);
    assert t'.history[..p] == t.history[..p];
    if es != [] {
      StepKeepsInvariant(t, base, es[0]);
      var t1, more := NextTraced(t, es[0]), StepEffect(t.chain, es[0]);
      StepIsSubsequence(t, es[0], before);
      PositionsAreTimely(t1, base, es[1..], before + more);
      PrependTimely(t'.history, p, PositionsAlong(t1, base, es[1..]), before,
                    EffectsAlong(t1.chain, es[1..], before + more));
    }
  }

  /** These values of the tail are, one after the other, at points of this history that do not go
      back, and show only what had taken effect by then. */
  ghost predicate ReadsForward(base: Store, h: seq<Op>, tails: seq<Store>, effects: seq<seq<Op>>) {
    exists ps :: Follows(base, h, tails, ps) && Timely(h, ps, effects)
  }

  /** Read the tail as often as you like, in whatever states of the run: the reads are at points of
      the run's own list of effective writes that never go back, whatever servers are lost and
      join in between. */
  lemma TailReadsMoveForward(n: nat, base: Store, es: seq<Event>)
    requires n > 0 && CanRun(Start(n, base), es)
    requires OrderlyRun(Start(n, base), es) && SettledRun(Start(n, base), es)
    ensures var c := Start(n, base);
            ReadsForward(base, EffectiveWrites(c, es), TailsAlong(c, es), EffectsAlong(c, es, []))
  {
    StartHolds(n, base);
    var t := StartTraced(n, base);
    HistoryIsEffectiveWrites(t, base, es);
    PositionsFollow(t, base, es);
    PositionsAreTimely(t, base, es, []);
    assert [] + EffectiveWrites(t.chain, es) == EffectiveWrites(t.chain, es);
  }

  ghost predicate SomeReadsForward(base: Store, all: seq<Op>, tails: seq<Store>, effects: seq<seq<Op>>) {
    exists h :: Subsequence(h, all) && ReadsForward(base, h, tails, effects)
  }

  /** Also when heads are lost with leftovers, which may cost effective writes: the reads are at
      points of one history of writes that are left, and never go back in it. */
  lemma TailReadsMoveForwardThroughLosses(n: nat, base: Store, es: seq<Event>)
    requires n > 0 && CanRun(Start(n, base), es) && OrderlyRun(Start(n, base), es)
    ensures var c := Start(n, base);
            SomeReadsForward(base, EffectiveWrites(c, es), TailsAlong(c, es), EffectsAlong(c, es, []))
  {
    StartHolds(n, base);
    var t := StartTraced(n, base);
    HistoryWasEffective(t, base, es, []);
    PositionsFollow(t, base, es);
    PositionsAreTimely(t, base, es, []);
    assert [] + EffectiveWrites(t.chain, es) == EffectiveWrites(t.chain, es);
    assert ReadsForward(base, ExecTraced(t, base, es).history, TailsAlong(t.chain, es), EffectsAlong(t.chain, es, []));
  }

  /** Where replica i is after a run, if it is still there. */
  function FollowAll(c: Chain, es: seq<Event>, i: nat): Option<nat>
    requires WellFormed(c) && CanRun(c, es) && i < |c.replicas|
    decreases |es|
  {
    if es == [] then Some(i)
    else match Follow(c, es[0], i)
         case None => None
         case Some(i') => if i' < |Next(c, es[0]).replicas| then FollowAll(Next(c, es[0]), es[1..], i') else None
  }

  /** Over any run, prefixes never shrink at a server that is still there at the end. */
  lemma {:induction false} NoServerEverGoesBack(t: Traced, base: Store, es: seq<Event>, i: nat)
    requires Invariant(t, base) && CanRun(t.chain, es) && OrderlyRun(t.chain, es) && i < |t.applied|
    requires FollowAll(t.chain, es, i).Some?
    ensures var t', i' := ExecTraced(t, base, es), FollowAll(t.chain, es, i).value;
            i' < |t'.applied| && t.applied[i] <= t'.applied[i'] && SamePrefix(t.history, t'.history, t.applied[i])
    decreases |es|
  {
    if es != [] {
      NoServerGoesBack(t, base, es[0], i);
      var t1, i1 := NextTraced(t, es[0]), Follow(t.chain, es[0], i).value;
      NoServerEverGoesBack(t1, base, es[1..], i1);
      var t2 := ExecTraced(t1, base, es[1..]);
      assert ExecTraced(t, base, es) == t2;
      SamePrefixTransitive(t.history, t1.history, t2.history, t.applied[i], t1.applied[i1]);
    }
  }
}
