/** Links need not be FIFO: the code opens a connection per message, so messages about different
    keys may overtake each other. Seen through one key, the chain is again a chain, and order
    per key is all that reads of that key depend on. */
module PerKey {
  import opened CStrings
  import opened Entries
  import opened Operations
  import opened Chains
  import opened Histories

  /** What a store says about k alone. */
  function Only(s: Store, k: CString): Store {
    if k in s then map[k := s[k]] else map[]
  }

  /** The chain with everything but k and the messages about it left out. */
  function Project(c: Chain, k: CString): (c': Chain)
    requires WellFormed(c)
    ensures WellFormed(c')
  {
    Chain(seq(|c.replicas|, i requires 0 <= i < |c.replicas| => Only(c.replicas[i], k)),
          seq(|c.links|, i requires 0 <= i < |c.links| => OnKey(c.links[i], k)),
          OnKey(c.leftover, k))
  }

  lemma {:induction false} OnKeyConcat(a: seq<Op>, b: seq<Op>, k: CString)
    ensures OnKey(a + b, k) == OnKey(a, k) + OnKey(b, k)
  {
    if b == [] {
      assert a + b == a;
    } else {
      assert (a + b)[..|a + b| - 1] == a + b[..|b| - 1];
      OnKeyConcat(a, b[..|b| - 1], k);
    }
  }

  lemma OnKeyOne(op: Op, k: CString)
    ensures OnKey([op], k) == if op.key == k then [op] else []
  {
    assert [op][..0] == [];
  }

  /** Where message j of a queue is among those about k. */
  function Rank(q: seq<Op>, j: nat, k: CString): nat
    requires j <= |q|
  {
    |OnKey(q[..j], k)|
  }

  lemma WithoutMiddle<T>(a: seq<T>, x: T, b: seq<T>)
    ensures var q := (a + [x]) + b; q[..|a|] == a && q[|a|] == x && Without(q, |a|) == a + b
  {
  }

  lemma OnKeySplit(a: seq<Op>, op: Op, b: seq<Op>, k: CString)
    ensures OnKey((a + [op]) + b, k) ==
            if op.key == k then (OnKey(a, k) + [op]) + OnKey(b, k) else OnKey(a, k) + OnKey(b, k)
  {
    OnKeyConcat(a + [op], b, k);
    OnKeyConcat(a, [op], k);
    OnKeyOne(op, k);
    assert OnKey(a, k) + [] == OnKey(a, k);
  }

  lemma OnKeyWithout(q: seq<Op>, j: nat, k: CString)
    requires j < |q|
    ensures q[j].key != k ==> OnKey(Without(q, j), k) == OnKey(q, k)
    ensures q[j].key == k ==> Rank(q, j, k) < |OnKey(q, k)| && OnKey(q, k)[Rank(q, j, k)] == q[j]
                              && OnKey(Without(q, j), k) == Without(OnKey(q, k), Rank(q, j, k))
  {
    var a, op, b := q[..j], q[j], q[j + 1..];
    assert q == (a + [op]) + b;
    OnKeySplit(a, op, b, k);
    OnKeyConcat(a, b, k);
    WithoutMiddle(OnKey(a, k), op, OnKey(b, k));
  }

  lemma {:induction false} OnKeyCopies(op: Op, n: nat, k: CString)
    ensures OnKey(Copies(op, n), k) == if op.key == k then Copies(op, n) else []
  {
    if n > 0 {
      assert Copies(op, n)[..n - 1] == Copies(op, n - 1);
      OnKeyCopies(op, n - 1, k);
    }
  }

  lemma OnlyApply(s: Store, op: Op, k: CString)
    ensures Only(Apply(s, op), k) == if op.key == k then Apply(Only(s, k), op) else Only(s, k)
    ensures op.key == k ==> (Effective(Only(s, k), op) <==> Effective(s, op))
  {
  }

  lemma ForwardedProjects(s: Store, link: seq<Op>, op: Op, copies: nat, k: CString)
    ensures OnKey(link + Forwarded(s, op, copies), k) ==
            if op.key == k then OnKey(link, k) + Forwarded(Only(s, k), op, copies) else OnKey(link, k)
  {
    OnKeyConcat(link, Forwarded(s, op, copies), k);
    OnKeyCopies(op, copies, k);
    OnlyApply(s, op, k);
    assert OnKey(link, k) + [] == OnKey(link, k);
  }

  lemma ReceiveProjectsReplicas(c: Chain, i: nat, op: Op, copies: nat, k: CString)
    requires WellFormed(c) && i < |c.replicas|
    ensures Project(Receive(c, i, op, copies), k).replicas ==
            if op.key == k then Receive(Project(c, k), i, op, copies).replicas else Project(c, k).replicas
  {
    OnlyApply(c.replicas[i], op, k);
  }

  lemma ReceiveProjectsLinks(c: Chain, i: nat, op: Op, copies: nat, k: CString)
    requires WellFormed(c) && i < |c.replicas|
    ensures Project(Receive(c, i, op, copies), k).links ==
            if op.key == k then Receive(Project(c, k), i, op, copies).links else Project(c, k).links
  {
    if i < |c.links| {
      ForwardedProjects(c.replicas[i], c.links[i], op, copies, k);
    }
  }

  lemma ReceiveProjects(c: Chain, i: nat, op: Op, copies: nat, k: CString)
    requires WellFormed(c) && i < |c.replicas|
    ensures Project(Receive(c, i, op, copies), k) ==
            if op.key == k then Receive(Project(c, k), i, op, copies) else Project(c, k)
  {
    ReceiveProjectsReplicas(c, i, op, copies, k);
    ReceiveProjectsLinks(c, i, op, copies, k);
  }

  // ---- steps and runs, seen through k ----

  /** All earlier messages of the queue that are about the key of message j are repeats of it. */
  predicate OvertakesRepeats(q: seq<Op>, j: nat)
    requires j < |q|
  {
    forall i :: 0 <= i < j && q[i].key == q[j].key ==> q[i] == q[j]
  }

  /** Of equal messages at the front it does not matter which is taken. */
  function Turn(q: seq<Op>, j: nat): (i: nat)
    requires j < |q|
    ensures i < |q| && q[i] == q[j]
  {
    if forall i :: 0 <= i < j ==> q[i] == q[j] then 0 else j
  }

  lemma TurnTakesTheSame(q: seq<Op>, j: nat)
    requires j < |q|
    ensures Without(q, Turn(q, j)) == Without(q, j)
  {
  }

  /** The step of the projected chain; a step about another key is none. */
  function ProjectEvent(c: Chain, e: Event, k: CString): Event
    requires WellFormed(c) && Enabled(c, e)
  {
    match e
    case Write(i, op, copies) => if op.key == k then e else Skip
    case Deliver(l, j, copies) =>
      if c.links[l][j].key == k then Deliver(l, TurnOf(c.links[l], j), copies) else Skip
    case Settle(j, copies) => if c.leftover[j].key == k then Settle(TurnOf(c.leftover, j), copies) else Skip
    case Join(s) => Join(Only(s, k))
    case _ => e
  }

  /** When the message is taken, among those about its key. */
  function TurnOf(q: seq<Op>, j: nat): nat
    requires j < |q|
  {
    OnKeyWithout(q, j, q[j].key);
    Turn(OnKey(q, q[j].key), Rank(q, j, q[j].key))
  }

  lemma TurnOfTakes(q: seq<Op>, j: nat)
    requires j < |q|
    ensures var k := q[j].key; var i, s := TurnOf(q, j), OnKey(q, k);
            i < |s| && s[i] == q[j] && Without(s, i) == OnKey(Without(q, j), k)
  {
    var k := q[j].key;
    OnKeyWithout(q, j, k);
    TurnTakesTheSame(OnKey(q, k), Rank(q, j, k));
  }

  lemma DeliverProjects(c: Chain, l: nat, j: nat, copies: nat, k: CString)
    requires WellFormed(c) && l < |c.links| && j < |c.links[l]|
    ensures var c', op := Project(c, k), c.links[l][j];
            && (op.key != k ==> Project(Take(c, l, j, copies), k) == c')
            && (op.key == k ==> TurnOf(c.links[l], j) < |c'.links[l]|
                                && Project(Take(c, l, j, copies), k) == Take(c', l, TurnOf(c.links[l], j), copies))
  {
    var link := c.links[l];
    var c1 := c.(links := c.links[l := Without(link, j)]);
    ReceiveProjects(c1, l + 1, link[j], copies, k);
    assert Project(c1, k).replicas == Project(c, k).replicas;
    assert Project(c1, k).links == Project(c, k).links[l := OnKey(Without(link, j), k)];
    if link[j].key == k {
      TurnOfTakes(link, j);
    } else {
      OnKeyWithout(link, j, k);
      assert Project(c1, k).links == Project(c, k).links;
    }
  }

  lemma SettleProjects(c: Chain, j: nat, copies: nat, k: CString)
    requires WellFormed(c) && j < |c.leftover|
    ensures var c', op := Project(c, k), c.leftover[j];
            && (op.key != k ==> Project(TakeLeftover(c, j, copies), k) == c')
            && (op.key == k ==>
                 TurnOf(c.leftover, j) < |c'.leftover|
                 && Project(TakeLeftover(c, j, copies), k) == TakeLeftover(c', TurnOf(c.leftover, j), copies))
  {
    var c1 := c.(leftover := Without(c.leftover, j));
    ReceiveProjects(c1, 0, c.leftover[j], copies, k);
    assert Project(c1, k).replicas == Project(c, k).replicas && Project(c1, k).links == Project(c, k).links;
    if c.leftover[j].key == k {
      TurnOfTakes(c.leftover, j);
    } else {
      OnKeyWithout(c.leftover, j, k);
    }
  }

  lemma BypassProjects(c: Chain, i: nat, k: CString)
    requires WellFormed(c) && 0 < i < |c.replicas| - 1
    ensures Project(Bypass(c, i), k) == Bypass(Project(c, k), i)
  {
    var a, b := Project(Bypass(c, i), k), Bypass(Project(c, k), i);
    assert a.replicas == b.replicas;
    assert a.links == b.links;
  }

  lemma MembershipProjects(c: Chain, e: Event, k: CString)
    requires WellFormed(c) && Enabled(c, e) && (e.LoseHead? || e.LoseTail? || e.LoseMiddle? || e.Join?)
    ensures var e' := ProjectEvent(c, e, k);
            Enabled(Project(c, k), e') && Project(Next(c, e), k) == Next(Project(c, k), e')
  {
    if e.LoseMiddle? {
      BypassProjects(c, e.at, k);
    } else {
      var a, b := Project(Next(c, e), k), Next(Project(c, k), ProjectEvent(c, e, k));
      assert a.replicas == b.replicas;
      assert a.links == b.links;
    }
  }

  /** The projection of a step is a step of the projection, and the same write to k takes effect in
      it, if any. */
  lemma StepProjects(c: Chain, e: Event, k: CString)
    requires WellFormed(c) && Enabled(c, e)
    ensures var c', e' := Project(c, k), ProjectEvent(c, e, k);
            && Enabled(c', e') && Project(Next(c, e), k) == Next(c', e')
            && StepEffect(c', e') == OnKey(StepEffect(c, e), k)
  {
    match e
    case Write(i, op, copies) =>
      ReceiveProjects(c, i, op, copies, k);
      OnlyApply(c.replicas[i], op, k);
      OnKeyOne(op, k);
    case Deliver(l, j, copies) => DeliverProjects(c, l, j, copies, k);
    case Settle(j, copies) => SettleProjects(c, j, copies, k);
    case Skip =>
    case _ => MembershipProjects(c, e, k);
  }

  function ProjectRun(c: Chain, es: seq<Event>, k: CString): seq<Event>
    requires WellFormed(c) && CanRun(c, es)
    decreases |es|
  {
    if es == [] then [] else [ProjectEvent(c, es[0], k)] + ProjectRun(Next(c, es[0]), es[1..], k)
  }

  /** No message of the queue is about k. */
  predicate SilentOn(q: seq<Op>, k: CString) {
    forall i :: 0 <= i < |q| ==> q[i].key != k
  }

  lemma {:induction false} SilentIff(q: seq<Op>, k: CString)
    ensures SilentOn(q, k) <==> OnKey(q, k) == []
  {
    if q != [] {
      SilentIff(q[..|q| - 1], k);
    }
  }

  lemma {:induction false} OnKeyMembers(q: seq<Op>, k: CString)
    ensures forall op :: op in OnKey(q, k) ==> op in q && op.key == k
  {
    if q != [] {
      OnKeyMembers(q[..|q| - 1], k);
    }
  }

  /** Messages about k overtake none about k but repeats of themselves; writes to k that take effect
      do so at a head with no leftovers about k, and are passed on; a middle server is lost with
      nothing about k under way to it; who joins has the tail's value of k. Of other keys nothing
      is asked. */
  predicate KeyOrderly(c: Chain, e: Event, k: CString)
    requires WellFormed(c) && Enabled(c, e)
  {
    match e
    case Write(i, op, copies) =>
      op.key != k || (Tells(c, i, op, copies) && (Effective(c.replicas[i], op) ==> i == 0 && SilentOn(c.leftover, k)))
    case Deliver(l, j, copies) =>
      c.links[l][j].key != k || (Tells(c, l + 1, c.links[l][j], copies) && OvertakesRepeats(c.links[l], j))
    case Settle(j, copies) =>
      c.leftover[j].key != k || (Tells(c, 0, c.leftover[j], copies) && OvertakesRepeats(c.leftover, j))
    case LoseHead => SilentOn(c.leftover, k)
    case LoseMiddle(i) => SilentOn(c.links[i - 1], k)
    case Join(s) => At(s, k) == At(Tail(c), k)
    case _ => true
  }

  predicate KeyOrderlyRun(c: Chain, es: seq<Event>, k: CString)
    requires WellFormed(c) && CanRun(c, es)
    decreases |es|
  {
    es == [] || (KeyOrderly(c, es[0], k) && KeyOrderlyRun(Next(c, es[0]), es[1..], k))
  }

  lemma RepeatsComeFirst(q: seq<Op>, j: nat)
    requires j < |q| && OvertakesRepeats(q, j)
    ensures TurnOf(q, j) == 0
  {
    var k := q[j].key;
    var s, r := OnKey(q, k), Rank(q, j, k);
    OnKeyWithout(q, j, k);
    OnKeyMembers(q[..j], k);
    OnKeyPrefix(q, j, k);
    forall i | 0 <= i < r ensures s[i] == s[r] {
      assert s[i] == OnKey(q[..j], k)[i];
    }
  }

  lemma OnKeyPrefix(q: seq<Op>, j: nat, k: CString)
    requires j <= |q|
    ensures Rank(q, j, k) <= |OnKey(q, k)| && OnKey(q, k)[..Rank(q, j, k)] == OnKey(q[..j], k)
  {
    assert q == q[..j] + q[j..];
    OnKeyConcat(q[..j], q[j..], k);
  }

  lemma TellsProjects(c: Chain, i: nat, op: Op, copies: nat)
    requires WellFormed(c) && i < |c.replicas|
    ensures Tells(Project(c, op.key), i, op, copies) <==> Tells(c, i, op, copies)
    ensures Effective(Project(c, op.key).replicas[i], op) <==> Effective(c.replicas[i], op)
  {
    OnlyApply(c.replicas[i], op, op.key);
  }

  lemma DeliverStaysOrderly(c: Chain, l: nat, j: nat, copies: nat)
    requires WellFormed(c) && Enabled(c, Deliver(l, j, copies))
    requires Tells(c, l + 1, c.links[l][j], copies) && OvertakesRepeats(c.links[l], j)
    ensures var c', e := Project(c, c.links[l][j].key), Deliver(l, TurnOf(c.links[l], j), copies);
            Enabled(c', e) && Orderly(c', e)
  {
    TellsProjects(c, l + 1, c.links[l][j], copies);
    TurnOfTakes(c.links[l], j);
    RepeatsComeFirst(c.links[l], j);
  }

  lemma SettleStaysOrderly(c: Chain, j: nat, copies: nat)
    requires WellFormed(c) && Enabled(c, Settle(j, copies))
    requires Tells(c, 0, c.leftover[j], copies) && OvertakesRepeats(c.leftover, j)
    ensures var c', e := Project(c, c.leftover[j].key), Settle(TurnOf(c.leftover, j), copies);
            Enabled(c', e) && Orderly(c', e)
  {
    TellsProjects(c, 0, c.leftover[j], copies);
    TurnOfTakes(c.leftover, j);
    RepeatsComeFirst(c.leftover, j);
  }

  lemma KeyOrderlyProjects(c: Chain, e: Event, k: CString)
    requires WellFormed(c) && Enabled(c, e) && KeyOrderly(c, e, k)
    ensures var c', e' := Project(c, k), ProjectEvent(c, e, k);
            Enabled(c', e') && Orderly(c', e') && (e'.LoseHead? ==> c'.leftover == [])
  {
    match e
    case Write(i, op, copies) =>
      TellsProjects(c, i, op, copies);
      SilentIff(c.leftover, k);
    case Deliver(l, j, copies) => if c.links[l][j].key == k { DeliverStaysOrderly(c, l, j, copies); }
    case Settle(j, copies) => if c.leftover[j].key == k { SettleStaysOrderly(c, j, copies); }
    case LoseHead => SilentIff(c.leftover, k);
    case LoseMiddle(i) => SilentIff(c.links[i - 1], k);
    case _ =>
  }

  lemma {:induction false} RunProjects(c: Chain, es: seq<Event>, k: CString)
    requires WellFormed(c) && CanRun(c, es) && KeyOrderlyRun(c, es, k)
    ensures var c', es' := Project(c, k), ProjectRun(c, es, k);
            && CanRun(c', es') && Exec(c', es') == Project(Exec(c, es), k)
            && OrderlyRun(c', es') && SettledRun(c', es')
            && EffectiveWrites(c', es') == OnKey(EffectiveWrites(c, es), k)
    decreases |es|
  {
    if es != [] {
      var c1 := Next(c, es[0]);
      RunProjects(c1, es[1..], k);
      StepProjects(c, es[0], k);
      KeyOrderlyProjects(c, es[0], k);
      OnKeyConcat(StepEffect(c, es[0]), EffectiveWrites(c1, es[1..]), k);
      assert ProjectRun(c, es, k)[1..] == ProjectRun(c1, es[1..], k);
    }
  }

  // ---- reads of one key ----

  /** What the tail has under k in the states of a run. */
  function ValuesOf(tails: seq<Store>, k: CString): seq<Option<Block>> {
    seq(|tails|, i requires 0 <= i < |tails| => At(tails[i], k))
  }

  function OnKeyEach(effects: seq<seq<Op>>, k: CString): seq<seq<Op>> {
    seq(|effects|, i requires 0 <= i < |effects| => OnKey(effects[i], k))
  }

  function OnlyEach(stores: seq<Store>, k: CString): seq<Store> {
    seq(|stores|, i requires 0 <= i < |stores| => Only(stores[i], k))
  }

  lemma PrependOnly(s: Store, stores: seq<Store>, k: CString)
    ensures OnlyEach([s] + stores, k) == [Only(s, k)] + OnlyEach(stores, k)
  {
  }

  lemma PrependOnKey(q: seq<Op>, effects: seq<seq<Op>>, k: CString)
    ensures OnKeyEach([q] + effects, k) == [OnKey(q, k)] + OnKeyEach(effects, k)
  {
  }

  lemma TailProjects(c: Chain, k: CString)
    requires WellFormed(c)
    ensures Tail(Project(c, k)) == Only(Tail(c), k)
  {
  }

  lemma {:induction false} TailsProject(c: Chain, es: seq<Event>, k: CString)
    requires WellFormed(c) && CanRun(c, es) && CanRun(Project(c, k), ProjectRun(c, es, k))
    ensures TailsAlong(Project(c, k), ProjectRun(c, es, k)) == OnlyEach(TailsAlong(c, es), k)
    decreases |es|
  {
    TailProjects(c, k);
    if es == [] {
      PrependOnly(Tail(c), [], k);
    } else {
      StepProjects(c, es[0], k);
      assert ProjectRun(c, es, k)[1..] == ProjectRun(Next(c, es[0]), es[1..], k);
      TailsProject(Next(c, es[0]), es[1..], k);
      PrependOnly(Tail(c), TailsAlong(Next(c, es[0]), es[1..]), k);
    }
  }

  lemma {:induction false} EffectsProject(c: Chain, es: seq<Event>, k: CString, before: seq<Op>)
    requires WellFormed(c) && CanRun(c, es) && CanRun(Project(c, k), ProjectRun(c, es, k))
    ensures EffectsAlong(Project(c, k), ProjectRun(c, es, k), OnKey(before, k)) ==
            OnKeyEach(EffectsAlong(c, es, before), k)
    decreases |es|
  {
    if es == [] {
      PrependOnKey(before, [], k);
    } else {
      var c1, more := Next(c, es[0]), StepEffect(c, es[0]);
      StepProjects(c, es[0], k);
      assert ProjectRun(c, es, k)[1..] == ProjectRun(c1, es[1..], k);
      OnKeyConcat(before, more, k);
      EffectsProject(c1, es[1..], k, before + more);
      PrependOnKey(before, EffectsAlong(c1, es[1..], before + more), k);
    }
  }

  /** These values are, one after the other, what so many of these writes left under k, of which
      there are never fewer than before, and only such as had taken effect by then. */
  ghost predicate KeyReadsForward(base: Store, k: CString, h: seq<Op>, values: seq<Option<Block>>,
                                  effects: seq<seq<Op>>)
  {
    exists ps :: KeyFollows(base, k, h, values, ps) && Timely(h, ps, effects)
  }

  ghost predicate KeyFollows(base: Store, k: CString, h: seq<Op>, values: seq<Option<Block>>, ps: seq<nat>) {
    && |ps| == |values| && NonDecreasing(ps)
    && forall i :: 0 <= i < |ps| ==> ps[i] <= |h| && values[i] == LeftUnder(base, h[..ps[i]], k)
  }

  lemma FromOnly(base: Store, k: CString, h: seq<Op>, tails: seq<Store>, ps: seq<nat>)
    requires Follows(Only(base, k), h, OnlyEach(tails, k), ps)
    ensures KeyFollows(base, k, h, ValuesOf(tails, k), ps)
  {
    forall i | 0 <= i < |ps| ensures ps[i] <= |h| && At(tails[i], k) == LeftUnder(base, h[..ps[i]], k) {
      assert Reached(Only(base, k), h, ps[i], OnlyEach(tails, k)[i]);
      ApplyAllAt(Only(base, k), h[..ps[i]], k);
    }
  }

  lemma FromOnlyReads(base: Store, k: CString, h: seq<Op>, tails: seq<Store>, effects: seq<seq<Op>>)
    requires ReadsForward(Only(base, k), h, OnlyEach(tails, k), effects)
    ensures KeyReadsForward(base, k, h, ValuesOf(tails, k), effects)
  {
    var ps :| Follows(Only(base, k), h, OnlyEach(tails, k), ps) && Timely(h, ps, effects);
    FromOnly(base, k, h, tails, ps);
  }

  lemma StartProjects(n: nat, base: Store, k: CString)
    requires n > 0
    ensures Project(Start(n, base), k) == Start(n, Only(base, k))
  {
    var a, b := Project(Start(n, base), k), Start(n, Only(base, k));
    assert a.replicas == b.replicas && a.links == b.links;
  }

  lemma ProjectedReads(n: nat, base: Store, c: Chain, es: seq<Event>, k: CString)
    requires n > 0 && c == Start(n, base) && CanRun(c, es) && KeyOrderlyRun(c, es, k)
    ensures ReadsForward(Only(base, k), OnKey(EffectiveWrites(c, es), k), OnlyEach(TailsAlong(c, es), k),
                         OnKeyEach(EffectsAlong(c, es, []), k))
  {
    StartProjects(n, base, k);
    RunProjects(c, es, k);
    TailsProject(c, es, k);
    EffectsProject(c, es, k, []);
    TailReadsMoveForward(n, Only(base, k), ProjectRun(c, es, k));
  }

  /** GET k from the tail as often as you like: the answers are at points of the effective writes to
      k that never go back, whatever overtakes whatever about other keys, and whatever servers
      are lost and join in between. */
  lemma KeyReadsMoveForward(n: nat, base: Store, es: seq<Event>, k: CString)
    requires n > 0 && CanRun(Start(n, base), es) && KeyOrderlyRun(Start(n, base), es, k)
    ensures var c := Start(n, base);
            KeyReadsForward(base, k, OnKey(EffectiveWrites(c, es), k), ValuesOf(TailsAlong(c, es), k),
                            OnKeyEach(EffectsAlong(c, es, []), k))
  {
    var c := Start(n, base);
    ProjectedReads(n, base, c, es, k);
    FromOnlyReads(base, k, OnKey(EffectiveWrites(c, es), k), TailsAlong(c, es), OnKeyEach(EffectsAlong(c, es, []), k));
  }

  // ---- order within a key is needed ----

  /** A message that overtakes an earlier one on its key, other than a repeat, makes GETs at the tail
      go back to the earlier one when that is handled next. If a third one follows, all of this is
      safe: replicas will agree, but reads do not move forward. */
  lemma OvertakingReadsBack(c: Chain, i: nat, j: nat, m: nat)
    requires WellFormed(c) && LinksHold(c) && |c.links| > 0
    requires var link := c.links[|c.links| - 1];
             i < j < |link| && link[i].key == link[j].key && link[i] != link[j]
    ensures var l, link := |c.links| - 1, c.links[|c.links| - 1];
            var c1 := Take(c, l, j, m); var c2 := Take(c1, l, i, m);
            && At(Tail(c1), link[j].key) == Written(link[j]) && At(Tail(c2), link[j].key) == Written(link[i])
            && Written(link[j]) != Written(link[i])
            && ((exists x :: j < x < |link| && link[x].key == link[j].key) ==> LinksHold(c1) && LinksHold(c2))
  {
    var l, link := |c.links| - 1, c.links[|c.links| - 1];
    var c1, op := Take(c, l, j, m), link[j];
    var rest := Without(link, j);
    assert c1.links[l] == rest && rest[i] == link[i];
    ApplyAt(c.replicas[l + 1], op, op.key);
    ApplyAt(c1.replicas[l + 1], link[i], op.key);
    if x :| j < x < |link| && link[x].key == op.key {
      assert rest[x - 1] == link[x];
      LaterMessageHides(link, j, x);
      LaterMessageHides(rest, i, x - 1);
      TakeIsExact(c, l, j, m);
      TakeIsExact(c1, l, i, m);
    }
  }

  lemma LaterMessageHides(q: seq<Op>, j: nat, x: nat)
    requires j < x < |q| && q[x].key == q[j].key
    ensures Harmless(q, j)
  {
    var k := q[j].key;
    var a, b := q[..j + 1], q[j + 1..];
    assert q == a + b && Without(q, j) == q[..j] + b && q[x] == b[x - j - 1];
    LastOnConcat(a, b, k);
    LastOnConcat(q[..j], b, k);
    LastOnIsMember(b, k);
  }
}
