/** A server joins the chain with a table loaded from the tail's answer to GETTABLE. */
module Joins {
  import opened CStrings
  import opened Hashing
  import opened Entries
  import opened Lists
  import opened Layouts
  import opened Operations
  import opened Messages
  import C = Chains

  /** The joiner's table of n slots after a PUT for every entry of the reply. */
  function Loaded(n: nat, entries: seq<Entry>): Layout
    requires n > 0
  {
    Build(seq(n, _ => []), Puts(entries))
  }

  lemma RepresentsOne(l: Layout, a: Store, b: Store)
    requires Represents(l, a) && Represents(l, b)
    ensures a == b
  {
    forall k ensures At(a, k) == At(b, k) {
      assert At(a, k) == Find(l[Slot(k, |l|)], k) == At(b, k);
    }
    StoresEqual(a, b);
  }

  /** The chain goes on with whoever has a table of these contents as its tail. */
  ghost predicate JoinsWell(c: C.Chain, table: Layout)
    requires C.WellFormed(c)
  {
    exists m :: Represents(table, m) && C.LinksHold(C.Next(c, C.Join(m)))
  }

  /** A joiner is right exactly if its table represents what the tail stores. */
  lemma JoinsWellIff(c: C.Chain, table: Layout)
    requires C.WellFormed(c) && C.LinksHold(c)
    ensures JoinsWell(c, table) <==> Represents(table, C.Tail(c))
  {
    if JoinsWell(c, table) {
      var m :| Represents(table, m) && C.LinksHold(C.Next(c, C.Join(m)));
      C.JoinIsExact(c, m);
    }
    if Represents(table, C.Tail(c)) {
      C.JoinIsExact(c, C.Tail(c));
    }
  }

  /** Whatever the number of slots on either side: if the tail of a chain answers GETTABLE, a
      server that loads the answer joins well. The tail answers exactly if it stores something
      and no slot is empty; if it stores nothing it refuses, and an empty table joins well; if it
      stores something and a slot is empty it dies. */
  lemma GetTableJoins(c: C.Chain, s: State, request: Content, n: nat)
    requires C.WellFormed(c) && C.LinksHold(c) && n > 0
    requires Represents(s.layout, s.store) && s.at.isTail && s.store == C.Tail(c)
    requires request.opcode == OP_GETTABLE
    ensures var reply := Serve(s, request).reply;
            && (reply == Fault <==> s.store != map[] && [] in s.layout)
            && (reply.Done? && reply.value.opcode == OP_GETTABLE + 1 <==> s.store != map[] && [] !in s.layout)
            && (reply.Done? && reply.value.opcode == OP_GETTABLE + 1 ==>
                 JoinsWell(c, Loaded(n, reply.value.entries)))
            && (reply.Done? && reply.value.opcode != OP_GETTABLE + 1 ==> JoinsWell(c, Loaded(n, [])))
  {
    var reply := Serve(s, request).reply;
    GetTableIff(s, request);
    if reply.Done? {
      if reply.value.opcode == OP_GETTABLE + 1 {
        SnapshotRoundTrip(reply.value.entries, s.store, n);
        JoinsWellIff(c, Loaded(n, reply.value.entries));
      } else {
        EmptyRepresents(n);
        JoinsWellIff(c, Loaded(n, []));
      }
    }
  }

  /** The chain need not stand still while the joiner loads: it still joins well exactly if the
      tail then stores what it stored when it answered. */
  lemma LateJoinIff(c: C.Chain, s: State, request: Content, n: nat, es: seq<C.Event>)
    requires C.WellFormed(c) && C.LinksHold(c) && C.CanRun(c, es) && C.SafeRun(c, es) && n > 0
    requires Represents(s.layout, s.store) && s.at.isTail && s.store == C.Tail(c)
    requires request.opcode == OP_GETTABLE && s.store != map[] && [] !in s.layout
    ensures Serve(s, request).reply.Done?
    ensures JoinsWell(C.Exec(c, es), Loaded(n, Serve(s, request).reply.value.entries)) <==>
            C.Tail(C.Exec(c, es)) == C.Tail(c)
  {
    GetTableIff(s, request);
    var table := Loaded(n, Serve(s, request).reply.value.entries);
    SnapshotRoundTrip(Serve(s, request).reply.value.entries, s.store, n);
    C.RunKeepsLinks(c, es);
    JoinsWellIff(C.Exec(c, es), table);
    if Represents(table, C.Tail(C.Exec(c, es))) {
      RepresentsOne(table, s.store, C.Tail(C.Exec(c, es)));
    }
  }

  /** The tail of two servers answers GETTABLE, then handles a PUT that was under way, and then the
      joiner, loaded from the answer, takes its place behind it: what it holds is out of date. */
  lemma LateJoinSplits(k: CString, v: Block, x: CString, u: Block)
    requires k != x
    ensures var c := C.Chain([map[x := u, k := v], map[x := u]], [[Put(k, v)]], []);
            var c' := C.Next(c, C.Deliver(0, 0, 2));
            && C.LinksHold(c) && C.Safe(c, C.Deliver(0, 0, 2)) && C.Tail(c) != map[]
            && !C.LinksHold(C.Next(c', C.Join(C.Tail(c))))
  {
    var c := C.Chain([map[x := u, k := v], map[x := u]], [[Put(k, v)]], []);
    var c' := C.Next(c, C.Deliver(0, 0, 2));
    var before: Store, after: Store := map[x := u], map[x := u, k := v];
    assert before[k := v] == after;
    ApplyAllSnoc(before, [], Put(k, v));
    assert [] + [Put(k, v)] == [Put(k, v)];
    assert C.LinkHolds(c, 0);
    C.FrontIsHarmless([Put(k, v)]);
    C.StepKeepsLinks(c, C.Deliver(0, 0, 2));
    assert C.LinksHold(c);
    assert C.Safe(c, C.Deliver(0, 0, 2));
    assert C.Tail(c) != map[] by { assert x in C.Tail(c); }
    assert C.LinksHold(c');
    assert C.Tail(c') == before[k := v];
    assert k in C.Tail(c') && k !in C.Tail(c);
    C.JoinIsExact(c', C.Tail(c));
  }

  /** Loading and answering again gives back the same snapshot, up to order: what the joiner would
      answer as tail is a snapshot of the same store. */
  lemma LoadedAnswersAlike(s: State, request: Content, joined: State)
    requires Represents(s.layout, s.store) && s.at.isTail && joined.at.isTail
    requires request.opcode == OP_GETTABLE
    requires Serve(s, request).reply.Done? && Serve(s, request).reply.value.opcode == OP_GETTABLE + 1
    requires |joined.layout| > 0
    requires joined.layout == Loaded(|joined.layout|, Serve(s, request).reply.value.entries)
    requires Represents(joined.layout, joined.store)
    ensures AnswerGetsAlike(s, joined)
    ensures |joined.layout| == |s.layout| ==> Serve(joined, request).reply == Serve(s, request).reply
  {
    GetTableIff(s, request);
    SnapshotRoundTrip(Serve(s, request).reply.value.entries, s.store, |joined.layout|);
    RepresentsOne(joined.layout, joined.store, s.store);
    GetsTellIff(s, joined);
    if |joined.layout| == |s.layout| {
      AgreeingTailsAnswerAlike(s, joined, request);
    }
  }
}
