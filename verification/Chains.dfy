/** Chain replication as a step system. A server applies an operation to its own store and
    puts copies of it on the link to its successor without waiting; replica 0 is the head. */
module Chains {
  import opened CStrings
  import opened Entries
  import opened Operations

  /** links[i] holds the messages sent by replica i that replica i+1 has not handled yet, and
      leftover those a head that is gone had sent to the present one. */
  datatype Chain = Chain(replicas: seq<Store>, links: seq<seq<Op>>, leftover: seq<Op>)

  /** copies is the number of times an operation is forwarded: twice for a PUT as the source
      has it, once by invoke and once by handle_client, and not at all while a server does not
      know its successor. A client may write at any server; the store of a joining server is
      whatever it has been loaded with. Skip stands for whatever leaves stores and messages
      alone. */
  datatype Event =
    | Write(at: nat, op: Op, copies: nat)
    | Deliver(link: nat, index: nat, copies: nat)
    | Settle(index: nat, copies: nat)
    | LoseHead
    | LoseTail
    | LoseMiddle(at: nat)
    | Join(store: Store)
    | Skip

  predicate WellFormed(c: Chain) {
    |c.replicas| > 0 && |c.links| == |c.replicas| - 1
  }

  function Tail(c: Chain): Store
    requires WellFormed(c)
  {
    c.replicas[|c.replicas| - 1]
  }

  function Without<T>(s: seq<T>, i: nat): seq<T>
    requires i < |s|
  {
    s[..i] + s[i + 1..]
  }

  predicate Enabled(c: Chain, e: Event)
    requires WellFormed(c)
  {
    match e
    case Write(i, _, _) => i < |c.replicas|
    case Deliver(l, j, _) => l < |c.links| && j < |c.links[l]|
    case Settle(j, _) => j < |c.leftover|
    case LoseHead => |c.replicas| > 1
    case LoseTail => |c.replicas| > 1
    case LoseMiddle(i) => 0 < i < |c.replicas| - 1
    case Join(_) => true
    case Skip => true
  }

  /** Replica i handles an operation. */
  function Receive(c: Chain, i: nat, op: Op, copies: nat): Chain
    requires WellFormed(c) && i < |c.replicas|
  {
    Chain(c.replicas[i := Apply(c.replicas[i], op)],
          if i < |c.links| then c.links[i := c.links[i] + Forwarded(c.replicas[i], op, copies)] else c.links,
          c.leftover)
  }

  function Take(c: Chain, l: nat, j: nat, copies: nat): Chain
    requires WellFormed(c) && l < |c.links| && j < |c.links[l]|
  {
    Receive(c.(links := c.links[l := Without(c.links[l], j)]), l + 1, c.links[l][j], copies)
  }

  /** The head handles what its lost predecessor had sent it. */
  function TakeLeftover(c: Chain, j: nat, copies: nat): Chain
    requires WellFormed(c) && j < |c.leftover|
  {
    Receive(c.(leftover := Without(c.leftover, j)), 0, c.leftover[j], copies)
  }

  /** Replica i is gone; what it had sent is still under way to its successor, which is now the
      successor of its predecessor. What had been sent to it is lost. */
  function Bypass(c: Chain, i: nat): Chain
    requires WellFormed(c) && 0 < i < |c.replicas| - 1
  {
    Chain(Without(c.replicas, i), Without(c.links, i - 1), c.leftover)
  }

  /** Whoever is lost, what it had sent stays under way: what the head had sent becomes the
      leftover of the next head. */
  function Next(c: Chain, e: Event): (c': Chain)
    requires WellFormed(c) && Enabled(c, e)
    ensures WellFormed(c')
  {
    match e
    case Write(i, op, copies) => Receive(c, i, op, copies)
    case Deliver(l, j, copies) => Take(c, l, j, copies)
    case Settle(j, copies) => TakeLeftover(c, j, copies)
    case LoseHead => Chain(c.replicas[1..], c.links[1..], c.links[0])
    case LoseTail => c.(replicas := c.replicas[..|c.replicas| - 1], links := c.links[..|c.links| - 1])
    case LoseMiddle(i) => Bypass(c, i)
    case Join(s) => c.(replicas := c.replicas + [s], links := c.links + [[]])
    case Skip => c
  }

  predicate CanRun(c: Chain, es: seq<Event>)
    requires WellFormed(c)
    decreases |es|
  {
    es == [] || (Enabled(c, es[0]) && CanRun(Next(c, es[0]), es[1..]))
  }

  function Exec(c: Chain, es: seq<Event>): (c': Chain)
    requires WellFormed(c) && CanRun(c, es)
    ensures WellFormed(c')
    decreases |es|
  {
    if es == [] then c else Exec(Next(c, es[0]), es[1..])
  }

  /** n servers that hold the same store and have sent nothing. */
  function Start(n: nat, base: Store): (c: Chain)
    requires n > 0
    ensures WellFormed(c)
  {
    Chain(seq(n, _ => base), seq(n - 1, _ => []), [])
  }

  /** The client's write that takes effect in a step, if any. */
  function StepEffect(c: Chain, e: Event): seq<Op>
    requires WellFormed(c) && Enabled(c, e)
  {
    if e.Write? && Effective(c.replicas[e.at], e.op) then [e.op] else []
  }

  /** The clients' writes that take effect along a run, in order. */
  function EffectiveWrites(c: Chain, es: seq<Event>): seq<Op>
    requires WellFormed(c) && CanRun(c, es)
    decreases |es|
  {
    if es == [] then [] else StepEffect(c, es[0]) + EffectiveWrites(Next(c, es[0]), es[1..])
  }

  /** The write a step acknowledges to a client, if any. */
  function StepAcked(c: Chain, e: Event, repaired: bool): seq<Op>
    requires WellFormed(c) && Enabled(c, e)
  {
    if e.Write? && Effective(c.replicas[e.at], e.op) && Acked(e.op, repaired) then [e.op] else []
  }

  /** The writes acknowledged along a run, in order. */
  function AckedWrites(c: Chain, es: seq<Event>, repaired: bool): seq<Op>
    requires WellFormed(c) && CanRun(c, es)
    decreases |es|
  {
    if es == [] then [] else StepAcked(c, es[0], repaired) + AckedWrites(Next(c, es[0]), es[1..], repaired)
  }

  lemma StepAckedOf(c: Chain, e: Event, repaired: bool)
    requires WellFormed(c) && Enabled(c, e)
    ensures StepAcked(c, e, repaired) == AckedOf(StepEffect(c, e), repaired)
  {
    var now := StepEffect(c, e);
    assert now != [] ==> now[..0] == [];
  }

  /** The acknowledged writes of a run are a sub-list of those in effect: the PUTs of strings, and
      the DELs only if the second forward is repaired. */
  lemma {:induction false} AckedAreEffective(c: Chain, es: seq<Event>, repaired: bool)
    requires WellFormed(c) && CanRun(c, es)
    ensures AckedWrites(c, es, repaired) == AckedOf(EffectiveWrites(c, es), repaired)
    ensures Subsequence(AckedWrites(c, es, repaired), EffectiveWrites(c, es))
    decreases |es|
  {
    if es != [] {
      StepAckedOf(c, es[0], repaired);
      AckedAreEffective(Next(c, es[0]), es[1..], repaired);
      AckedOfConcat(StepEffect(c, es[0]), EffectiveWrites(Next(c, es[0]), es[1..]), repaired);
    }
    AckedOfIsSublist(EffectiveWrites(c, es), repaired);
  }

  /** Nothing is under way between servers of the chain. */
  predicate Drained(c: Chain) {
    forall i :: 0 <= i < |c.links| ==> c.links[i] == []
  }

  /** Handling what is pending on a link would bring the successor level with its predecessor. */
  ghost predicate LinkHolds(c: Chain, i: nat)
    requires WellFormed(c) && i < |c.links|
  {
    ApplyAll(c.replicas[i + 1], c.links[i]) == c.replicas[i]
  }

  ghost predicate LinksHold(c: Chain)
    requires WellFormed(c)
  {
    forall i :: 0 <= i < |c.links| ==> LinkHolds(c, i)
  }

  /** Taking this message out of turn does not change who writes its key last, unless no other
      message of the queue is about that key. The front message always qualifies. */
  predicate Harmless(queue: seq<Op>, index: nat)
    requires index < |queue|
  {
    var k := queue[index].key;
    LastOn(Without(queue, index), k) == None || LastOn(Without(queue, index), k) == LastOn(queue, k)
  }

  /** What replica i makes of an operation gets to its successor, if it has one and there is
      anything to tell it. */
  predicate PassedOn(c: Chain, i: nat, op: Op, copies: nat)
    requires WellFormed(c) && i < |c.replicas|
  {
    copies > 0 || i == |c.replicas| - 1 || Apply(c.replicas[i], op) == c.replicas[i]
  }

  /** What can be seen before a step of whether it keeps every replica on course. */
  predicate Safe(c: Chain, e: Event)
    requires WellFormed(c) && Enabled(c, e)
  {
    match e
    case Write(i, op, copies) =>
      && PassedOn(c, i, op, copies)
      && (i == 0 || Apply(c.replicas[i], op) == c.replicas[i] || LastOn(c.links[i - 1], op.key).Some?)
    case Deliver(l, j, copies) => PassedOn(c, l + 1, c.links[l][j], copies) && Harmless(c.links[l], j)
    case Settle(j, copies) => PassedOn(c, 0, c.leftover[j], copies)
    case LoseMiddle(i) => c.replicas[i - 1] == c.replicas[i]
    case Join(s) => s == Tail(c)
    case _ => true
  }

  // ---- one step ----

  lemma OutgoingIsExact(c: Chain, i: nat, op: Op, copies: nat)
    requires WellFormed(c) && i < |c.links| && LinkHolds(c, i)
    ensures LinkHolds(Receive(c, i, op, copies), i) <==> PassedOn(c, i, op, copies)
  {
    if copies > 0 {
      ApplyAllConcat(c.replicas[i + 1], c.links[i], Forwarded(c.replicas[i], op, copies));
      ForwardedIsEnough(c.replicas[i], op, copies);
    } else {
      assert Forwarded(c.replicas[i], op, copies) == [];
      assert c.links[i] + [] == c.links[i];
    }
  }

  /** A write keeps every replica on course exactly when it is passed on and it enters at the head,
      changes nothing, or is going to be overwritten by a message already under way. */
  lemma WriteAnywhere(c: Chain, i: nat, op: Op, copies: nat)
    requires WellFormed(c) && LinksHold(c) && i < |c.replicas|
    ensures LinksHold(Receive(c, i, op, copies)) <==>
            && PassedOn(c, i, op, copies)
            && (i == 0 || Apply(c.replicas[i], op) == c.replicas[i] || LastOn(c.links[i - 1], op.key).Some?)
  {
    var c' := Receive(c, i, op, copies);
    if i < |c.links| {
      assert LinkHolds(c, i);
      OutgoingIsExact(c, i, op, copies);
    }
    assert forall j :: 0 <= j < |c.links| && j != i && j != i - 1 ==> (LinkHolds(c', j) <==> LinkHolds(c, j));
    if i > 0 {
      assert LinkHolds(c, i - 1);
      OverwrittenOrNot(c.replicas[i], op, c.links[i - 1]);
      assert LinkHolds(c', i - 1) <==> ApplyAll(Apply(c.replicas[i], op), c.links[i - 1]) == c.replicas[i - 1];
    }
  }

  /** The client connects to the tail and writes there: the head never learns of it, although
      nothing is under way. */
  lemma WriteAtTailSplits(k: CString, v: Block)
    ensures var c := Receive(Start(2, map[]), 1, Put(k, v), 2);
            Drained(c) && At(c.replicas[1], k) == Some(v) && At(c.replicas[0], k) == None
  {
    var c := Receive(Start(2, map[]), 1, Put(k, v), 2);
    assert c.links == Start(2, map[]).links;
  }

  /** A PUT overtaken by the newer one to the same key is handled last: nothing is under way and
      the tail keeps the older value for good. */
  lemma OvertakingSplits(k: CString, v: Block, w: Block)
    requires v != w
    ensures var c := Chain([map[k := w], map[]], [[Put(k, v), Put(k, w)]], []);
            && LinksHold(c)
            && var c' := Take(Take(c, 0, 1, 1), 0, 0, 1);
               Drained(c') && At(c'.replicas[0], k) == Some(w) && At(Tail(c'), k) == Some(v)
  {
    var c := Chain([map[k := w], map[]], [[Put(k, v), Put(k, w)]], []);
    var nothing: Store := map[];
    assert LinkHolds(c, 0) by {
      ApplyAllSnoc(nothing, [Put(k, v)], Put(k, w));
      ApplyAllSnoc(nothing, [], Put(k, v));
      assert [Put(k, v)] + [Put(k, w)] == c.links[0] && [] + [Put(k, v)] == [Put(k, v)];
      assert map[k := v][k := w] == map[k := w];
    }
    assert Without(c.links[0], 1) == [Put(k, v)] && Without([Put(k, v)], 0) == [];
    assert Take(c, 0, 1, 1) == Chain([map[k := w], map[k := w]], [[Put(k, v)]], []);
  }

  lemma OverwrittenOrNot(t: Store, op: Op, ops: seq<Op>)
    ensures ApplyAll(Apply(t, op), ops) == ApplyAll(t, ops) <==> Apply(t, op) == t || LastOn(ops, op.key).Some?
  {
    forall k
      ensures At(ApplyAll(Apply(t, op), ops), k) ==
              if k == op.key && LastOn(ops, k) == None then Written(op) else At(ApplyAll(t, ops), k)
    {
      ApplyAllAt(Apply(t, op), ops, k);
      ApplyAllAt(t, ops, k);
      ApplyAt(t, op, k);
    }
    if LastOn(ops, op.key).Some? {
      StoresEqual(ApplyAll(Apply(t, op), ops), ApplyAll(t, ops));
    } else if ApplyAll(Apply(t, op), ops) == ApplyAll(t, ops) {
      ApplyAllAt(t, ops, op.key);
      forall k ensures At(Apply(t, op), k) == At(t, k) {
        ApplyAt(t, op, k);
      }
      StoresEqual(Apply(t, op), t);
    }
  }

  lemma OutOfTurn(t: Store, link: seq<Op>, j: nat)
    requires j < |link|
    ensures ApplyAll(Apply(t, link[j]), Without(link, j)) == ApplyAll(t, link) <==> Harmless(link, j)
  {
    var op, rest := link[j], Without(link, j);
    forall k ensures k != op.key ==> LastOn(rest, k) == LastOn(link, k) {
      SplitLastOn(link, j, k);
    }
    SplitLastOn(link, j, op.key);
    LastOnIsMember(rest, op.key);
    LastOnIsMember(link, op.key);
    ApplyAllAt(Apply(t, op), rest, op.key);
    ApplyAllAt(t, link, op.key);
    if Harmless(link, j) {
      forall k ensures At(ApplyAll(Apply(t, op), rest), k) == At(ApplyAll(t, link), k) {
        ApplyAllAt(Apply(t, op), rest, k);
        ApplyAllAt(t, link, k);
        ApplyAt(t, op, k);
      }
      StoresEqual(ApplyAll(Apply(t, op), rest), ApplyAll(t, link));
    }
  }

  lemma SplitLastOn(link: seq<Op>, j: nat, k: CString)
    requires j < |link|
    ensures k != link[j].key ==> LastOn(Without(link, j), k) == LastOn(link, k)
    ensures LastOn(Without(link, j), link[j].key) == None ==> LastOn(link, link[j].key) == Some(link[j])
    ensures LastOn(link, link[j].key).Some?
  {
    var a, b, op := link[..j], link[j + 1..], link[j];
    assert link == (a + [op]) + b;
    LastOnConcat(a + [op], b, k);
    LastOnConcat(a, [op], k);
    LastOnConcat(a, b, k);
    LastOnConcat(a + [op], b, op.key);
    LastOnConcat(a, [op], op.key);
    LastOnConcat(a, b, op.key);
    assert [op][..0] == [];
  }

  lemma FrontIsHarmless(link: seq<Op>)
    requires link != []
    ensures Harmless(link, 0)
  {
    var op := link[0];
    assert link == [op] + link[1..] && Without(link, 0) == link[1..];
    LastOnConcat([op], link[1..], op.key);
  }

  /** A message may be handled out of turn exactly when that is harmless in the sense above, in
      particular whenever no earlier message of the link is about its key, and it is passed on. */
  lemma TakeIsExact(c: Chain, l: nat, j: nat, copies: nat)
    requires WellFormed(c) && LinksHold(c) && l < |c.links| && j < |c.links[l]|
    ensures LinksHold(Take(c, l, j, copies)) <==>
            Harmless(c.links[l], j) && PassedOn(c, l + 1, c.links[l][j], copies)
  {
    var link := c.links[l];
    var c1 := c.(links := c.links[l := Without(link, j)]);
    var c' := Take(c, l, j, copies);
    OutOfTurn(c.replicas[l + 1], link, j);
    assert LinkHolds(c, l);
    assert LinkHolds(c', l) <==> ApplyAll(Apply(c.replicas[l + 1], link[j]), Without(link, j)) == c.replicas[l];
    if l + 1 < |c.links| {
      assert LinkHolds(c, l + 1);
      assert LinkHolds(c1, l + 1);
      OutgoingIsExact(c1, l + 1, link[j], copies);
    }
    assert forall i :: 0 <= i < |c.links| && i != l && i != l + 1 ==> (LinkHolds(c', i) <==> LinkHolds(c, i));
  }

  lemma KeyFirstIsHarmless(link: seq<Op>, j: nat)
    requires j < |link|
    requires forall i :: 0 <= i < j ==> link[i].key != link[j].key
    ensures Harmless(link, j)
  {
    var a, b, op := link[..j], link[j + 1..], link[j];
    assert link == (a + [op]) + b;
    LastOnConcat(a + [op], b, op.key);
    LastOnConcat(a, b, op.key);
    LastOnIsMember(a, op.key);
  }

  /** One PUT at the head of three servers, and the middle one is lost before it has handled it:
      nothing is under way and the tail never gets it. */
  lemma BypassSplits(k: CString, v: Block)
    ensures var c := Bypass(Receive(Start(3, map[]), 0, Put(k, v), 2), 1);
            Drained(c) && At(c.replicas[0], k) == Some(v) && At(Tail(c), k) == None
  {
    var c := Receive(Start(3, map[]), 0, Put(k, v), 2);
    assert c.links[1] == [];
  }

  /** A message on the link was never received. */
  function Drop(c: Chain, l: nat, j: nat): Chain
    requires WellFormed(c) && l < |c.links| && j < |c.links[l]|
  {
    c.(links := c.links[l := Without(c.links[l], j)])
  }

  /** A message may be lost exactly when the last one on its key stays the same, as with one of the
      two copies of a PUT, or the successor already holds its outcome. */
  lemma DropIsExact(c: Chain, l: nat, j: nat)
    requires WellFormed(c) && LinksHold(c) && l < |c.links| && j < |c.links[l]|
    ensures var link, op := c.links[l], c.links[l][j];
            LinksHold(Drop(c, l, j)) <==>
            || LastOn(Without(link, j), op.key) == LastOn(link, op.key)
            || (LastOn(Without(link, j), op.key) == None && Apply(c.replicas[l + 1], op) == c.replicas[l + 1])
  {
    WithoutOne(c.replicas[l + 1], c.links[l], j);
    var c' := Drop(c, l, j);
    assert LinkHolds(c, l);
    assert LinkHolds(c', l) <==> ApplyAll(c.replicas[l + 1], Without(c.links[l], j)) == c.replicas[l];
    forall i | 0 <= i < |c.links| && i != l ensures LinkHolds(c', i) { assert LinkHolds(c, i); }
  }

  /** A PUT sent once, and lost on the way to the only other server. */
  lemma DropSplits(k: CString, v: Block)
    ensures var c := Receive(Start(2, map[]), 0, Put(k, v), 1);
            && c.links[0] == [Put(k, v)]
            && var c' := Drop(c, 0, 0); Drained(c') && At(c'.replicas[0], k) == Some(v) && At(Tail(c'), k) == None
  {
    assert [] + Copies(Put(k, v), 1) == [Put(k, v)];
    assert Without([Put(k, v)], 0) == [];
  }

  lemma WithoutOne(t: Store, link: seq<Op>, j: nat)
    requires j < |link|
    ensures var rest, op := Without(link, j), link[j];
            ApplyAll(t, rest) == ApplyAll(t, link) <==>
            LastOn(rest, op.key) == LastOn(link, op.key) || (LastOn(rest, op.key) == None && Apply(t, op) == t)
  {
    var op, rest := link[j], Without(link, j);
    SplitLastOn(link, j, op.key);
    LastOnIsMember(rest, op.key);
    LastOnIsMember(link, op.key);
    forall k ensures k != op.key ==> At(ApplyAll(t, rest), k) == At(ApplyAll(t, link), k) {
      SplitLastOn(link, j, k);
      ApplyAllAt(t, rest, k);
      ApplyAllAt(t, link, k);
    }
    ApplyAllAt(t, rest, op.key);
    ApplyAllAt(t, link, op.key);
    ApplyAt(t, op, op.key);
    if At(t, op.key) == Written(op) {
      forall k ensures At(Apply(t, op), k) == At(t, k) { ApplyAt(t, op, k); }
      StoresEqual(Apply(t, op), t);
    }
    if At(ApplyAll(t, rest), op.key) == At(ApplyAll(t, link), op.key) {
      StoresEqual(ApplyAll(t, rest), ApplyAll(t, link));
    }
  }

  /** Losing a middle server keeps the chain on course exactly when it was level with its
      predecessor; a drained incoming link is enough. */
  lemma BypassIsExact(c: Chain, i: nat)
    requires WellFormed(c) && LinksHold(c) && 0 < i < |c.replicas| - 1
    ensures LinksHold(Bypass(c, i)) <==> c.replicas[i - 1] == c.replicas[i]
    ensures c.links[i - 1] == [] ==> c.replicas[i - 1] == c.replicas[i]
  {
    var c' := Bypass(c, i);
    assert LinkHolds(c, i - 1) && LinkHolds(c, i);
    assert LinkHolds(c', i - 1) <==> ApplyAll(c.replicas[i + 1], c.links[i]) == c.replicas[i - 1];
    forall j | 0 <= j < |c'.links| && j != i - 1 ensures LinkHolds(c', j) {
      assert LinkHolds(c, if j < i then j else j + 1);
    }
  }

  /** Losing a server at either end, or handling what a lost head left, puts nothing off course. */
  lemma EndsKeepLinks(c: Chain, e: Event)
    requires WellFormed(c) && LinksHold(c) && Enabled(c, e) && (e.LoseHead? || e.LoseTail?)
    ensures LinksHold(Next(c, e))
  {
    var c' := Next(c, e);
    forall i | 0 <= i < |c'.links| ensures LinkHolds(c', i) {
      assert LinkHolds(c, if e.LoseHead? then i + 1 else i);
    }
  }

  lemma JoinIsExact(c: Chain, s: Store)
    requires WellFormed(c) && LinksHold(c)
    ensures LinksHold(Next(c, Join(s))) <==> s == Tail(c)
  {
    var c' := Next(c, Join(s));
    assert LinkHolds(c', |c.links|) <==> s == Tail(c);
    forall i | 0 <= i < |c.links| ensures LinkHolds(c', i) { assert LinkHolds(c, i); }
  }

  /** A step keeps every replica on course exactly when it is safe, which can be seen before it
      is taken. */
  lemma StepKeepsLinks(c: Chain, e: Event)
    requires WellFormed(c) && LinksHold(c) && Enabled(c, e)
    ensures LinksHold(Next(c, e)) <==> Safe(c, e)
  {
    match e
    case Write(i, op, copies) => WriteAnywhere(c, i, op, copies);
    case Deliver(l, j, copies) => TakeIsExact(c, l, j, copies);
    case Settle(j, copies) =>
      var c1 := c.(leftover := Without(c.leftover, j));
      assert forall i :: 0 <= i < |c.links| ==> (LinkHolds(c1, i) <==> LinkHolds(c, i));
      WriteAnywhere(c1, 0, c.leftover[j], copies);
    case LoseMiddle(i) => BypassIsExact(c, i);
    case Join(s) => JoinIsExact(c, s);
    case Skip =>
    case _ => EndsKeepLinks(c, e);
  }

  // ---- whole runs ----

  predicate SafeRun(c: Chain, es: seq<Event>)
    requires WellFormed(c) && CanRun(c, es)
    decreases |es|
  {
    es == [] || (Safe(c, es[0]) && SafeRun(Next(c, es[0]), es[1..]))
  }

  lemma {:induction false} RunKeepsLinks(c: Chain, es: seq<Event>)
    requires WellFormed(c) && LinksHold(c) && CanRun(c, es) && SafeRun(c, es)
    ensures LinksHold(Exec(c, es))
    decreases |es|
  {
    if es != [] {
      StepKeepsLinks(c, es[0]);
      RunKeepsLinks(Next(c, es[0]), es[1..]);
    }
  }

  lemma {:induction false} DrainedAgree(c: Chain, i: nat, j: nat)
    requires WellFormed(c) && LinksHold(c) && Drained(c) && i <= j < |c.replicas|
    ensures c.replicas[i] == c.replicas[j]
    decreases j - i
  {
    if i < j {
      DrainedAgree(c, i, j - 1);
      assert LinkHolds(c, j - 1);
    }
  }

  ghost predicate AllEqual(c: Chain) {
    forall i, j :: 0 <= i < |c.replicas| && 0 <= j < |c.replicas| ==> c.replicas[i] == c.replicas[j]
  }

  /** Whatever writes, deliveries, losses and joins happened, each of them safe when it did: once
      nothing is under way all replicas hold the same map. */
  lemma ReplicasAgree(n: nat, base: Store, es: seq<Event>)
    requires n > 0 && CanRun(Start(n, base), es) && SafeRun(Start(n, base), es)
    ensures var c := Exec(Start(n, base), es); Drained(c) ==> AllEqual(c)
  {
    assert LinksHold(Start(n, base));
    RunKeepsLinks(Start(n, base), es);
    var c := Exec(Start(n, base), es);
    if Drained(c) {
      forall i | 0 <= i < |c.replicas| ensures c.replicas[0] == c.replicas[i] {
        DrainedAgree(c, 0, i);
      }
    }
  }

  lemma {:induction false} ExecConcat(c: Chain, es1: seq<Event>, es2: seq<Event>)
    requires WellFormed(c) && CanRun(c, es1) && CanRun(Exec(c, es1), es2)
    ensures CanRun(c, es1 + es2)
    ensures Exec(c, es1 + es2) == Exec(Exec(c, es1), es2)
    decreases |es1|
  {
    if es1 == [] {
      assert es1 + es2 == es2;
    } else {
      ExecConcat(Next(c, es1[0]), es1[1..], es2);
      assert (es1 + es2)[1..] == es1[1..] + es2;
    }
  }

  lemma {:induction false} EffectiveConcat(c: Chain, es1: seq<Event>, es2: seq<Event>)
    requires WellFormed(c) && CanRun(c, es1) && CanRun(Exec(c, es1), es2) && CanRun(c, es1 + es2)
    ensures EffectiveWrites(c, es1 + es2) == EffectiveWrites(c, es1) + EffectiveWrites(Exec(c, es1), es2)
    decreases |es1|
  {
    if es1 == [] {
      assert es1 + es2 == es2;
    } else {
      assert (es1 + es2)[1..] == es1[1..] + es2;
      EffectiveConcat(Next(c, es1[0]), es1[1..], es2);
      var now, rest := StepEffect(c, es1[0]), EffectiveWrites(Next(c, es1[0]), es1[1..]);
      Reassociate(now, rest, EffectiveWrites(Exec(c, es1), es2));
    }
  }

  lemma Reassociate<T>(a: seq<T>, b: seq<T>, c: seq<T>)
    ensures (a + b) + c == a + (b + c)
  {
  }
}
