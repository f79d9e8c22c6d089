/** Write operations, what a sequence of them does to a store, and which orders matter. */
module Operations {
  import opened CStrings
  import opened Entries
  import opened Layouts

  datatype Op = Put(key: CString, value: Block) | Del(key: CString)

  function Apply(t: Store, op: Op): Store {
    match op
    case Put(k, v) => t[k := v]
    case Del(k) => t - {k}
  }

  /** The operation takes effect, and is forwarded, exactly in these cases: a DEL that finds nothing
      is an error and goes no further. */
  predicate Effective(t: Store, op: Op) {
    op.Put? || op.key in t
  }

  /** The value ends in its only NUL, as the values of the shipped client do. */
  predicate IsString(v: Block) {
    v != [] && v[|v| - 1] == 0 && forall i :: 0 <= i < |v| - 1 ==> v[i] != 0
  }

  /** strdup: the bytes up to the first NUL, and that; None where it reads past the end. */
  function Strdup(v: Block): Option<Block> {
    var n := StringLength(v);
    if n < |v| then Some(v[..n + 1]) else None
  }

  /** It is the strings whose copy is as long as the message said. */
  lemma IsStringIff(v: Block)
    ensures IsString(v) <==> Strdup(v).Some? && |Strdup(v).value| == |v|
    ensures IsString(v) ==> Strdup(v) == Some(v)
  {
    StringLengthIsFirstNul(v);
    var n := StringLength(v);
    assert forall i :: 0 <= i < n ==> v[..n][i] == v[i] && v[..n][i] in v[..n];
    if n == |v| - 1 {
      assert v[..n + 1] == v;
    }
  }

  predicate StringPut(op: Op) {
    op.Put? && IsString(op.value)
  }

  predicate StringPuts(ops: seq<Op>) {
    forall j :: 0 <= j < |ops| ==> StringPut(ops[j])
  }

  /** Whether the client is told of an operation that has taken effect. As written only a PUT of a
      string gets its reply; after a DEL the server dies in handle_client's second forward, before
      it replies, unless that is repaired. */
  predicate Acked(op: Op, repaired: bool) {
    if op.Put? then IsString(op.value) else repaired
  }

  /** Those of these operations that are acknowledged, in order. */
  function AckedOf(ops: seq<Op>, repaired: bool): seq<Op> {
    if ops == [] then []
    else AckedOf(ops[..|ops| - 1], repaired) + if Acked(ops[|ops| - 1], repaired) then [ops[|ops| - 1]] else []
  }

  /** The elements of a are elements of b in the same order. */
  predicate Subsequence(a: seq<Op>, b: seq<Op>)
    decreases |b|
  {
    a == [] || (b != [] && (
      || Subsequence(a, b[..|b| - 1])
      || (a[|a| - 1] == b[|b| - 1] && Subsequence(a[..|a| - 1], b[..|b| - 1]))))
  }

  function ApplyAll(t: Store, ops: seq<Op>): Store
    decreases |ops|
  {
    if ops == [] then t else ApplyAll(Apply(t, ops[0]), ops[1..])
  }

  function Copies(op: Op, n: nat): seq<Op> {
    seq(n, _ => op)
  }

  /** The messages one handled operation puts on the outgoing link. */
  function Forwarded(t: Store, op: Op, copies: nat): seq<Op> {
    if Effective(t, op) then Copies(op, copies) else []
  }

  /** The last operation on key k. */
  function LastOn(ops: seq<Op>, k: CString): Option<Op> {
    if ops == [] then None
    else if ops[|ops| - 1].key == k then Some(ops[|ops| - 1])
    else LastOn(ops[..|ops| - 1], k)
  }

  /** The operations on key k, in order. */
  function OnKey(ops: seq<Op>, k: CString): seq<Op> {
    if ops == [] then []
    else OnKey(ops[..|ops| - 1], k) + if ops[|ops| - 1].key == k then [ops[|ops| - 1]] else []
  }

  function Written(op: Op): Option<Block> {
    if op.Put? then Some(op.value) else None
  }

  // ---- one operation ----

  lemma ApplyAt(t: Store, op: Op, k: CString)
    ensures At(Apply(t, op), k) == if k == op.key then Written(op) else At(t, k)
  {
  }

  lemma IneffectiveChangesNothing(t: Store, op: Op)
    ensures !Effective(t, op) ==> Apply(t, op) == t
  {
    if !Effective(t, op) {
      assert t - {op.key} == t;
    }
  }

  lemma ApplyTwice(t: Store, op: Op)
    ensures Apply(Apply(t, op), op) == Apply(t, op)
  {
    StoresEqual(Apply(Apply(t, op), op), Apply(t, op));
  }

  // ---- sequences ----

  lemma {:induction false} ApplyAllConcat(t: Store, a: seq<Op>, b: seq<Op>)
    ensures ApplyAll(t, a + b) == ApplyAll(ApplyAll(t, a), b)
    decreases |a|
  {
    if a == [] {
      assert a + b == b;
    } else {
      assert (a + b)[1..] == a[1..] + b;
      ApplyAllConcat(Apply(t, a[0]), a[1..], b);
    }
  }

  lemma ApplyAllSnoc(t: Store, a: seq<Op>, op: Op)
    ensures ApplyAll(t, a + [op]) == Apply(ApplyAll(t, a), op)
  {
    ApplyAllConcat(t, a, [op]);
    assert [op][1..] == [];
  }

  lemma {:induction false} ApplyCopies(t: Store, op: Op, n: nat)
    requires n > 0
    ensures ApplyAll(t, Copies(op, n)) == Apply(t, op)
  {
    assert Copies(op, n) == Copies(op, n - 1) + [op];
    ApplyAllSnoc(t, Copies(op, n - 1), op);
    if n > 1 {
      ApplyCopies(t, op, n - 1);
      ApplyTwice(t, op);
    }
  }

  /** Repeating a forwarded PUT and suppressing a DEL that found nothing are both harmless:
      the messages sent do to a store what the operation itself does. */
  lemma ForwardedIsEnough(t: Store, op: Op, copies: nat)
    requires copies > 0
    ensures ApplyAll(t, Forwarded(t, op, copies)) == Apply(t, op)
  {
    if Effective(t, op) {
      ApplyCopies(t, op, copies);
    } else {
      IneffectiveChangesNothing(t, op);
    }
  }

  /** Key by key, only the last operation counts. */
  lemma {:induction false} ApplyAllAt(t: Store, ops: seq<Op>, k: CString)
    ensures At(ApplyAll(t, ops), k) == match LastOn(ops, k) case None => At(t, k) case Some(op) => Written(op)
  {
    if ops != [] {
      var a, op := ops[..|ops| - 1], ops[|ops| - 1];
      assert ops == a + [op];
      ApplyAllSnoc(t, a, op);
      ApplyAt(ApplyAll(t, a), op, k);
      ApplyAllAt(t, a, k);
    }
  }

  lemma {:induction false} LastOnIsMember(ops: seq<Op>, k: CString)
    ensures match LastOn(ops, k)
            case None => forall i :: 0 <= i < |ops| ==> ops[i].key != k
            case Some(op) => op in ops && op.key == k
  {
    if ops != [] {
      LastOnIsMember(ops[..|ops| - 1], k);
    }
  }

  lemma {:induction false} LastOnConcat(a: seq<Op>, b: seq<Op>, k: CString)
    ensures LastOn(a + b, k) == if LastOn(b, k).Some? then LastOn(b, k) else LastOn(a, k)
  {
    if b == [] {
      assert a + b == a;
    } else {
      assert (a + b)[..|a + b| - 1] == a + b[..|b| - 1];
      LastOnConcat(a, b[..|b| - 1], k);
    }
  }

  lemma {:induction false} AckedOfConcat(a: seq<Op>, b: seq<Op>, repaired: bool)
    ensures AckedOf(a + b, repaired) == AckedOf(a, repaired) + AckedOf(b, repaired)
  {
    if b == [] {
      assert a + b == a;
    } else {
      assert (a + b)[..|a + b| - 1] == a + b[..|b| - 1];
      AckedOfConcat(a, b[..|b| - 1], repaired);
    }
  }

  /** What is acknowledged is a sub-list, in order, of what takes effect. */
  lemma {:induction false} AckedOfIsSublist(ops: seq<Op>, repaired: bool)
    ensures Subsequence(AckedOf(ops, repaired), ops)
    ensures forall op :: op in AckedOf(ops, repaired) <==> op in ops && Acked(op, repaired)
  {
    if ops != [] {
      var front, last := ops[..|ops| - 1], ops[|ops| - 1];
      AckedOfIsSublist(front, repaired);
      assert ops == front + [last];
      if Acked(last, repaired) {
        var a := AckedOf(ops, repaired);
        assert a[..|a| - 1] == AckedOf(front, repaired);
      } else {
        assert AckedOf(ops, repaired) == AckedOf(front, repaired);
      }
    }
  }

  ghost predicate SameEffect(a: seq<Op>, b: seq<Op>) {
    forall t :: ApplyAll(t, a) == ApplyAll(t, b)
  }

  ghost predicate SameLastWriters(a: seq<Op>, b: seq<Op>) {
    forall k :: LastOn(a, k) == LastOn(b, k)
  }

  /** Two orders of delivery have the same effect on every store if and only if each key is
      last written by the same operation. */
  lemma SameEffectIff(a: seq<Op>, b: seq<Op>)
    ensures SameEffect(a, b) <==> SameLastWriters(a, b)
  {
    if SameLastWriters(a, b) {
      forall t ensures ApplyAll(t, a) == ApplyAll(t, b) {
        forall k ensures At(ApplyAll(t, a), k) == At(ApplyAll(t, b), k) {
          ApplyAllAt(t, a, k);
          ApplyAllAt(t, b, k);
        }
        StoresEqual(ApplyAll(t, a), ApplyAll(t, b));
      }
    }
    if SameEffect(a, b) {
      forall k ensures LastOn(a, k) == LastOn(b, k) {
        SameEffectSameLast(a, b, k);
      }
    }
  }

  lemma SameEffectSameLast(a: seq<Op>, b: seq<Op>, k: CString)
    requires SameEffect(a, b)
    ensures LastOn(a, k) == LastOn(b, k)
  {
    var absent: Store, present: Store := map[], map[k := []];
    assert ApplyAll(absent, a) == ApplyAll(absent, b) && ApplyAll(present, a) == ApplyAll(present, b);
    ApplyAllAt(absent, a, k);
    ApplyAllAt(absent, b, k);
    ApplyAllAt(present, a, k);
    ApplyAllAt(present, b, k);
    LastOnIsMember(a, k);
    LastOnIsMember(b, k);
  }

  lemma {:induction false} LastOfOnKey(ops: seq<Op>, k: CString)
    ensures var s := OnKey(ops, k); LastOn(ops, k) == if s == [] then None else Some(s[|s| - 1])
  {
    if ops != [] {
      LastOfOnKey(ops[..|ops| - 1], k);
    }
  }

  ghost predicate SameOrderPerKey(a: seq<Op>, b: seq<Op>) {
    forall k :: OnKey(a, k) == OnKey(b, k)
  }

  lemma SameOrderSameLast(a: seq<Op>, b: seq<Op>, k: CString)
    requires OnKey(a, k) == OnKey(b, k)
    ensures LastOn(a, k) == LastOn(b, k)
  {
    LastOfOnKey(a, k);
    LastOfOnKey(b, k);
  }

  /** Per-key order is enough: messages for different keys may overtake each other. */
  lemma PerKeyOrderIsEnough(t: Store, a: seq<Op>, b: seq<Op>)
    requires SameOrderPerKey(a, b)
    ensures ApplyAll(t, a) == ApplyAll(t, b)
  {
    assert SameLastWriters(a, b) by {
      forall k ensures LastOn(a, k) == LastOn(b, k) {
        SameOrderSameLast(a, b, k);
      }
    }
    SameEffectIff(a, b);
    assert SameEffect(a, b);
  }

  // ---- layouts and snapshots ----

  function Build(l: Layout, ops: seq<Op>): Layout
    requires |l| > 0
    decreases |ops|
  {
    if ops == [] then l
    else Build(if ops[0].Put? then PutLayout(l, Entry(ops[0].key, ops[0].value)) else RemoveLayout(l, ops[0].key),
               ops[1..])
  }

  /** The table refines the map over every sequence of operations. */
  lemma {:induction false} BuildRepresents(l: Layout, m: Store, ops: seq<Op>)
    requires Represents(l, m)
    ensures |Build(l, ops)| == |l| && Represents(Build(l, ops), ApplyAll(m, ops))
    decreases |ops|
  {
    if ops != [] {
      var op := ops[0];
      if op.Put? {
        PutRepresents(l, m, Entry(op.key, op.value));
        BuildRepresents(PutLayout(l, Entry(op.key, op.value)), Apply(m, op), ops[1..]);
      } else {
        RemoveRepresents(l, m, op.key);
        BuildRepresents(RemoveLayout(l, op.key), Apply(m, op), ops[1..]);
      }
    }
  }

  /** Replicas that agree answer GETKEYS and GETTABLE alike, whatever histories they saw. */
  lemma HistoriesDoNotShow(l1: Layout, l2: Layout, m: Store, a: seq<Op>, b: seq<Op>)
    requires Represents(l1, m) && Represents(l2, m) && |l1| == |l2|
    requires SameLastWriters(a, b)
    ensures Build(l1, a) == Build(l2, b)
    ensures TableKeys(Build(l1, a)) == TableKeys(Build(l2, b))
  {
    BuildRepresents(l1, m, a);
    BuildRepresents(l2, m, b);
    SameEffectIff(a, b);
    assert SameEffect(a, b);
    assert ApplyAll(m, a) == ApplyAll(m, b);
    LayoutIsCanonical(Build(l1, a), Build(l2, b), ApplyAll(m, a));
  }

  /** The PUTs that load a list of entries. */
  function Puts(es: seq<Entry>): seq<Op> {
    seq(|es|, i requires 0 <= i < |es| => Put(es[i].key, es[i].value))
  }

  /** A list of entries is a snapshot of a store: every entry of it, each key once. */
  ghost predicate SnapshotOf(es: seq<Entry>, m: Store) {
    && Distinct(Keys(es))
    && (forall i :: 0 <= i < |es| ==> At(m, es[i].key) == Some(es[i].value))
    && (forall k :: k in m ==> k in Keys(es))
  }

  lemma {:induction false} LastOnPuts(es: seq<Entry>, k: CString)
    ensures match LastOn(Puts(es), k)
            case None => k !in Keys(es)
            case Some(op) => op.key == k && op.Put? && Entry(k, op.value) in es
  {
    if es != [] {
      var rest := es[..|es| - 1];
      LastOnPuts(rest, k);
      assert Puts(es)[..|es| - 1] == Puts(rest);
      assert Keys(es) == Keys(rest) + [es[|es| - 1].key];
    }
  }

  lemma SnapshotLoads(es: seq<Entry>, m: Store)
    requires SnapshotOf(es, m)
    ensures ApplyAll(map[], Puts(es)) == m
  {
    forall k ensures At(ApplyAll(map[], Puts(es)), k) == At(m, k) {
      ApplyAllAt(map[], Puts(es), k);
      LastOnPuts(es, k);
      if LastOn(Puts(es), k).Some? {
        var i :| 0 <= i < |es| && es[i] == Entry(k, LastOn(Puts(es), k).value.value);
      }
    }
    StoresEqual(ApplyAll(map[], Puts(es)), m);
  }

  lemma SnapshotCounts(es: seq<Entry>, m: Store)
    requires SnapshotOf(es, m)
    ensures |es| == |m|
  {
    DistinctCount(Keys(es));
    forall k ensures k in Keys(es) <==> k in m {
      if k in Keys(es) {
        var i :| 0 <= i < |es| && Keys(es)[i] == k;
        assert At(m, es[i].key).Some?;
      }
    }
    assert (set k | k in Keys(es)) == m.Keys;
    assert |m| == |m.Keys|;
  }

  /** A snapshot, in any order, loaded into an empty table of any number of slots gives back
      the store, and has as many entries as the store. */
  lemma SnapshotRoundTrip(es: seq<Entry>, m: Store, n: nat)
    requires SnapshotOf(es, m) && n > 0
    ensures Represents(Build(seq(n, _ => []), Puts(es)), m)
    ensures |es| == |m|
  {
    EmptyRepresents(n);
    BuildRepresents(seq(n, _ => []), map[], Puts(es));
    SnapshotLoads(es, m);
    SnapshotCounts(es, m);
  }
}
