/** When a read of the tail shows the newest write. */
module Visibility {
  import opened CStrings
  import opened Entries
  import opened Operations
  import opened Chains
  import opened HeadLosses

  /** The messages of a row of links, in the order in which the last server will handle what they
      bring: those nearest to it come first. */
  function Flat(links: seq<seq<Op>>): seq<Op> {
    if links == [] then [] else Flat(links[1..]) + links[0]
  }

  /** All that the tail has not seen yet of what the head is going to hold. */
  function UnderWay(c: Chain): seq<Op> {
    Flat(c.links) + c.leftover
  }

  /** What is under way behind replica i would bring the tail level with it. */
  lemma {:induction false} FlatLeads(c: Chain, i: nat)
    requires WellFormed(c) && LinksHold(c) && i < |c.replicas|
    ensures ApplyAll(Tail(c), Flat(c.links[i..])) == c.replicas[i]
    decreases |c.replicas| - i
  {
    if i < |c.links| {
      FlatLeads(c, i + 1);
      assert c.links[i..][1..] == c.links[i + 1..];
      ApplyAllConcat(Tail(c), Flat(c.links[i + 1..]), c.links[i]);
      assert LinkHolds(c, i);
    } else {
      assert c.links[i..] == [];
    }
  }

  lemma UnderWayLeads(c: Chain)
    requires WellFormed(c) && LinksHold(c)
    ensures ApplyAll(Tail(c), Flat(c.links)) == c.replicas[0]
    ensures ApplyAll(Tail(c), UnderWay(c)) == Intent(c)
  {
    FlatLeads(c, 0);
    assert c.links[0..] == c.links;
    ApplyAllConcat(Tail(c), Flat(c.links), c.leftover);
  }

  /** Nothing about k is in these messages, or the store has already what the last of them will
      leave. */
  predicate NoNewsOf(s: Store, ops: seq<Op>, k: CString) {
    match LastOn(ops, k) case None => true case Some(op) => At(s, k) == Written(op)
  }

  /** A GET of k at the tail shows what the head has under k exactly if no news of k are under way
      on the links, and what the head is going to have exactly if none are left over either. */
  lemma TailReadIsCurrentIff(c: Chain, k: CString)
    requires WellFormed(c) && LinksHold(c)
    ensures At(Tail(c), k) == At(c.replicas[0], k) <==> NoNewsOf(Tail(c), Flat(c.links), k)
    ensures At(Tail(c), k) == At(Intent(c), k) <==> NoNewsOf(Tail(c), UnderWay(c), k)
  {
    UnderWayLeads(c);
    ApplyAllAt(Tail(c), Flat(c.links), k);
    ApplyAllAt(Tail(c), UnderWay(c), k);
  }

  /** In every state reached under the guards: the tail shows what the last effective write to k
      left exactly if no news of k are under way. */
  lemma ReadsAreCurrentIff(n: nat, base: Store, es: seq<Event>, k: CString)
    requires n > 0 && CanRun(Start(n, base), es) && SafeRun(Start(n, base), es) && LosslessRun(Start(n, base), es)
    ensures var c, h := Exec(Start(n, base), es), EffectiveWrites(Start(n, base), es);
            At(Tail(c), k) == (match LastOn(h, k) case None => At(base, k) case Some(op) => Written(op))
            <==> NoNewsOf(Tail(c), UnderWay(c), k)
  {
    assert LinksHold(Start(n, base));
    RunKeepsLinks(Start(n, base), es);
    RunKeepsIntent(Start(n, base), es);
    TailReadIsCurrentIff(Exec(Start(n, base), es), k);
    ApplyAllAt(base, EffectiveWrites(Start(n, base), es), k);
  }

  /** A PUT of a string is acknowledged by the head before the tail can show it: reads are not
      linearizable. */
  lemma AcknowledgedPutNotVisible(k: CString, v: Block)
    requires IsString(v)
    ensures var c, e := Start(2, map[]), Write(0, Put(k, v), 2);
            && StepAcked(c, e, false) == [Put(k, v)] && Safe(c, e) && Lossless(c, e)
            && At(Next(c, e).replicas[0], k) == Some(v) && At(Tail(Next(c, e)), k) == None
            && !NoNewsOf(Tail(Next(c, e)), UnderWay(Next(c, e)), k)
  {
    var c, e := Start(2, map[]), Write(0, Put(k, v), 2);
    assert LinksHold(c);
    StepKeepsLinks(c, e);
    TailReadIsCurrentIff(Next(c, e), k);
  }
}
