/** The contents of a hash table, slot by slot, and the map they stand for. */
module Layouts {
  import opened CStrings
  import opened Hashing
  import opened Entries
  import opened Lists

  type Layout = seq<seq<Entry>>

  /** Every slot is sorted, every key sits in the slot its hash picks, and looking a key up
      in that slot gives the value the map gives. */
  ghost predicate Represents(l: Layout, m: Store) {
    && |l| > 0
    && (forall i :: 0 <= i < |l| ==> Sorted(l[i]) && InSlot(l[i], i, |l|))
    && (forall k :: At(m, k) == Find(l[Slot(k, |l|)], k))
  }

  ghost predicate InSlot(s: seq<Entry>, i: nat, n: nat)
    requires n > 0
  {
    forall j :: 0 <= j < |s| ==> Slot(s[j].key, n) == i
  }

  function PutLayout(l: Layout, e: Entry): Layout
    requires |l| > 0
  {
    var i := Slot(e.key, |l|);
    l[i := Insert(l[i], e)]
  }

  function RemoveLayout(l: Layout, k: CString): Layout
    requires |l| > 0
  {
    var i := Slot(k, |l|);
    l[i := Delete(l[i], k)]
  }

  /** What table_remove does: the slot's list_remove, fault included. */
  function TableRemoveOutcome(l: Layout, k: CString): Outcome<int>
    requires |l| > 0
  {
    RemoveOutcome(l[Slot(k, |l|)], k)
  }

  lemma PutRepresents(l: Layout, m: Store, e: Entry)
    requires Represents(l, m)
    ensures Represents(PutLayout(l, e), m[e.key := e.value])
  {
    var i := Slot(e.key, |l|);
    InsertSorted(l[i], e);
    InsertKeys(l[i], e);
    forall j | 0 <= j < |Insert(l[i], e)| ensures Slot(Insert(l[i], e)[j].key, |l|) == i {
      assert Insert(l[i], e)[j] in Insert(l[i], e);
    }
    forall k ensures At(m[e.key := e.value], k) == Find(PutLayout(l, e)[Slot(k, |l|)], k) {
      FindInsert(l[i], e, k);
      assert At(m, k) == Find(l[Slot(k, |l|)], k);
    }
  }

  lemma RemoveRepresents(l: Layout, m: Store, key: CString)
    requires Represents(l, m)
    ensures Represents(RemoveLayout(l, key), m - {key})
    ensures TableRemoveOutcome(l, key) ==
            if l[Slot(key, |l|)] == [] then Fault else if key in m then Done(0) else Done(1)
  {
    var i := Slot(key, |l|);
    DeleteSorted(l[i], key);
    DeleteKeys(l[i], key);
    forall j | 0 <= j < |Delete(l[i], key)| ensures Slot(Delete(l[i], key)[j].key, |l|) == i {
      assert Delete(l[i], key)[j] in Delete(l[i], key);
    }
    forall k ensures At(m - {key}, k) == Find(RemoveLayout(l, key)[Slot(k, |l|)], k) {
      FindDelete(l[i], key, k);
      assert At(m, k) == Find(l[Slot(k, |l|)], k);
    }
    assert At(m, key) == Find(l[i], key);
  }

  /** table_remove keeps its documented promise, 0 or 1 exactly by presence, exactly when
      the key's slot is not empty. */
  lemma TableRemoveMeetsContract(l: Layout, m: Store, key: CString)
    requires Represents(l, m)
    ensures TableRemoveOutcome(l, key) == Done(if key in m then 0 else 1) <==> l[Slot(key, |l|)] != []
  {
    RemoveRepresents(l, m, key);
  }

  /** The first DEL on a fresh table faults, whatever its key, where 1 is promised. */
  lemma FreshTableFaults(n: nat, k: CString)
    requires n > 0
    ensures TableRemoveOutcome(seq(n, _ => []), k) == Fault
    ensures RemoveContract(seq(n, _ => [])[Slot(k, n)], k) == Done(1)
  {
    FindAbsent([], k);
  }

  /** Canonical form: the slot count and the contents fix the layout, whatever sequence of
      operations built it. */
  lemma LayoutIsCanonical(l1: Layout, l2: Layout, m: Store)
    requires Represents(l1, m) && Represents(l2, m) && |l1| == |l2|
    ensures l1 == l2
  {
    forall i | 0 <= i < |l1| ensures l1[i] == l2[i] {
      forall k ensures Find(l1[i], k) == Find(l2[i], k) {
        NotElsewhere(l1[i], i, |l1|, k);
        NotElsewhere(l2[i], i, |l2|, k);
        assert At(m, k) == Find(l1[Slot(k, |l1|)], k);
        assert At(m, k) == Find(l2[Slot(k, |l1|)], k);
      }
      SortedIsCanonical(l1[i], l2[i]);
    }
  }

  lemma NotElsewhere(s: seq<Entry>, i: nat, n: nat, k: CString)
    requires n > 0 && InSlot(s, i, n)
    ensures Slot(k, n) != i ==> Find(s, k) == None
  {
    FindAbsent(s, k);
  }

  // ---- the key list ----

  /** The keys slot after slot, the order in which table_get_keys collects them. */
  function KeysOf(l: Layout): seq<CString> {
    if l == [] then [] else KeysOf(l[..|l| - 1]) + Keys(l[|l| - 1])
  }

  /** The number table_size adds up. */
  function Count(l: Layout): nat {
    if l == [] then 0 else Count(l[..|l| - 1]) + |l[|l| - 1]|
  }

  function TableKeys(l: Layout): Option<seq<CString>> {
    if [] in l then None else Some(KeysOf(l))
  }

  ghost predicate Distinct<T>(s: seq<T>) {
    forall i, j :: 0 <= i < j < |s| ==> s[i] != s[j]
  }

  lemma {:induction false} DistinctCount<T>(s: seq<T>)
    requires Distinct(s)
    ensures |set x | x in s| == |s|
  {
    if s != [] {
      var t := s[..|s| - 1];
      DistinctCount(t);
      assert (set x | x in s) == (set x | x in t) + {s[|s| - 1]};
    }
  }

  lemma SortedKeysDistinct(s: seq<Entry>)
    requires Sorted(s)
    ensures Distinct(Keys(s))
  {
    forall a, b | 0 <= a < b < |s| ensures s[a].key != s[b].key {
      LessIsTotal(s[a].key, s[b].key);
    }
  }

  lemma DistinctConcat(a: seq<CString>, b: seq<CString>)
    requires Distinct(a) && Distinct(b) && forall k :: k in a ==> k !in b
    ensures Distinct(a + b)
  {
    forall i, j | 0 <= i < j < |a + b| ensures (a + b)[i] != (a + b)[j] {
      if i < |a| <= j {
        assert a[i] in a && b[j - |a|] in b;
      }
    }
  }

  lemma {:induction false} KeysOfMembers(l: Layout, n: nat)
    requires n > 0
    requires forall i :: 0 <= i < |l| ==> Sorted(l[i]) && InSlot(l[i], i, n)
    ensures Distinct(KeysOf(l)) && |KeysOf(l)| == Count(l)
    ensures forall k :: k in KeysOf(l) <==> Slot(k, n) < |l| && Find(l[Slot(k, n)], k).Some?
  {
    if l != [] {
      var i := |l| - 1;
      var rest, last := l[..i], l[i];
      KeysOfMembers(rest, n);
      forall k ensures k in Keys(last) <==> Slot(k, n) == i && Find(last, k).Some? {
        KeysMember(last, k);
        NotElsewhere(last, i, n, k);
      }
      SortedKeysDistinct(last);
      DistinctConcat(KeysOf(rest), Keys(last));
      assert forall k :: k in KeysOf(l) <==> k in KeysOf(rest) || k in Keys(last);
    }
  }

  /** Every key is listed once, and table_size, a sum over slots, is the size of the map. */
  lemma KeyListIsDomain(l: Layout, m: Store)
    requires Represents(l, m)
    ensures Distinct(KeysOf(l)) && (set k | k in KeysOf(l)) == m.Keys
    ensures Count(l) == |KeysOf(l)| == |m|
  {
    KeysOfMembers(l, |l|);
    forall k: CString ensures k in KeysOf(l) <==> k in m {
      assert At(m, k) == Find(l[Slot(k, |l|)], k);
    }
    DistinctCount(KeysOf(l));
    assert |m| == |m.Keys|;
  }

  lemma {:induction false} NoEmptySlotCount(l: Layout)
    requires [] !in l
    ensures Count(l) >= |l|
  {
    if l != [] {
      NoEmptySlotCount(l[..|l| - 1]);
      assert l[|l| - 1] in l;
    }
  }

  /** table_get_keys lists every key, as its header promises, exactly when no slot is empty; a
      table with fewer keys than slots can never list them. */
  lemma KeysListedIff(l: Layout, m: Store)
    requires Represents(l, m)
    ensures (exists ks :: TableKeys(l) == Some(ks) && Distinct(ks) && (set k | k in ks) == m.Keys) <==> [] !in l
    ensures |m| < |l| ==> TableKeys(l) == None
  {
    KeyListIsDomain(l, m);
    if [] !in l {
      assert TableKeys(l) == Some(KeysOf(l));
      NoEmptySlotCount(l);
    }
  }

  lemma EmptyRepresents(n: nat)
    requires n > 0
    ensures Represents(seq(n, _ => []), map[])
  {
  }
}
