/** The sorted singly linked list of a table slot, spliced in place. */
module Lists {
  import opened CStrings
  import opened Entries

  /** What a C call does: it returns a value, or it dereferences NULL. */
  datatype Outcome<+T> = Done(value: T) | Fault

  /** A char* array that ends in NULL. */
  type KeyArray = array<Option<CString>>

  function Cells(keys: seq<CString>): seq<Option<CString>> {
    seq(|keys| + 1, i requires 0 <= i <= |keys| => if i < |keys| then Some(keys[i]) else None)
  }

  /** What list_remove does: without a head there is no key to compare with. */
  function RemoveOutcome(s: seq<Entry>, k: CString): Outcome<int> {
    if s == [] then Fault else if Find(s, k).Some? then Done(0) else Done(1)
  }

  /** What the header promises of list_remove. */
  function RemoveContract(s: seq<Entry>, k: CString): Outcome<int> {
    if Find(s, k).Some? then Done(0) else Done(1)
  }

  /** list_remove keeps its documented promise exactly on lists that are not empty. */
  lemma RemoveMeetsContract(s: seq<Entry>, k: CString)
    ensures RemoveOutcome(s, k) == RemoveContract(s, k) <==> s != []
  {
    FindAbsent(s, k);
  }

  class Node {
    var entry: Entry
    var size: int  // set from the first entry and never read
    var next: Node?

    constructor (entry: Entry)
      ensures this.entry == entry && next == null
    {
      this.entry := entry;
      this.size := |entry.value|;
      this.next := null;
    }
  }

  /** Where everything is once x has been spliced in behind position i. */
  lemma Spliced<T>(s: seq<T>, i: nat, x: T)
    requires i < |s|
    ensures var r := s[..i + 1] + [x] + s[i + 1..];
            && |r| == |s| + 1 && r[i + 1] == x
            && (forall j :: 0 <= j <= i ==> r[j] == s[j])
            && (forall j :: i + 1 < j < |r| ==> r[j] == s[j - 1])
  {
  }

  lemma SplicedApart<T>(s: seq<T>, i: nat, x: T)
    requires i < |s| && x !in s && forall p, q :: 0 <= p < q < |s| ==> s[p] != s[q]
    ensures var r := s[..i + 1] + [x] + s[i + 1..]; forall p, q :: 0 <= p < q < |r| ==> r[p] != r[q]
  {
    Spliced(s, i, x);
    var r := s[..i + 1] + [x] + s[i + 1..];
    forall p, q | 0 <= p < q < |r| ensures r[p] != r[q] {
      assert p != i + 1 ==> r[p] in s;
      assert q != i + 1 ==> r[q] in s;
    }
  }

  class List {
    var head: Node?
    var size: int

    ghost var nodes: seq<Node>
    ghost var entries: seq<Entry>
    ghost var Repr: set<object>

    /** The nodes hang together: acyclic, ending in NULL, counted by size. */
    ghost predicate Linked()
      reads this, Repr
    {
      && |nodes| == |entries| == size && this in Repr
      && head == (if nodes == [] then null else nodes[0])
      && (forall i :: 0 <= i < |nodes| ==> nodes[i] in Repr && nodes[i].entry == entries[i])
      && (forall i {:trigger nodes[i].next} :: 0 <= i < |nodes| - 1 ==> nodes[i].next == nodes[i + 1])
      && (nodes != [] ==> nodes[|nodes| - 1].next == null)
      && (forall i, j :: 0 <= i < j < |nodes| ==> nodes[i] != nodes[j])
    }

    ghost predicate Valid()
      reads this, Repr
    {
      Linked() && Sorted(entries)
    }

    constructor ()
      ensures Valid() && fresh(Repr) && entries == []
    {
      head, size := null, 0;
      nodes, entries, Repr := [], [], {this};
    }

    // ---- the pointer writes of list_add and list_remove ----

    method LinkFront(newNode: Node)
      requires Linked() && newNode !in nodes && newNode.next == null
      modifies this, newNode
      ensures Linked()
      ensures Repr == old(Repr) + {newNode}
      ensures entries == [old(newNode.entry)] + old(entries)
    {
      newNode.next := head;
      head := newNode;
      size := size + 1;
      Repr := Repr + {newNode};
      nodes, entries := [newNode] + nodes, [newNode.entry] + entries;
    }

    method LinkAfter(current: Node, newNode: Node, ghost i: nat)
      requires Linked() && newNode !in nodes
      requires i < |nodes| && current == nodes[i]
      modifies this, current, newNode
      ensures Linked()
      ensures Repr == old(Repr) + {newNode}
      ensures entries == old(entries)[..i + 1] + [old(newNode.entry)] + old(entries)[i + 1..]
    {
      Spliced(nodes, i, newNode);
      SplicedApart(nodes, i, newNode);
      Spliced(entries, i, newNode.entry);
      newNode.next := current.next;
      current.next := newNode;
      size := size + 1;
      Repr := Repr + {newNode};
      nodes := nodes[..i + 1] + [newNode] + nodes[i + 1..];
      entries := entries[..i + 1] + [newNode.entry] + entries[i + 1..];
      assert current.next == newNode;
    }

    method ReplaceEntry(current: Node, entry: Entry, ghost i: nat)
      requires Linked()
      requires i < |nodes| && current == nodes[i]
      modifies this, current
      ensures Linked() && Repr == old(Repr)
      ensures entries == old(entries)[i := entry]
    {
      current.entry := entry;
      entries := entries[i := entry];
    }

    method UnlinkHead()
      requires Linked() && nodes != []
      modifies this
      ensures Linked()
      ensures Repr == old(Repr) && entries == old(entries)[1..]
    {
      head := head.next;
      size := size - 1;
      nodes, entries := nodes[1..], entries[1..];
    }

    method UnlinkNext(current: Node, ghost i: nat)
      requires Linked() && i + 1 < |nodes| && current == nodes[i]
      modifies this, current
      ensures Linked()
      ensures Repr == old(Repr)
      ensures entries == old(entries)[..i + 1] + old(entries)[i + 2..]
    {
      current.next := current.next.next;
      size := size - 1;
      nodes := nodes[..i + 1] + nodes[i + 2..];
      entries := entries[..i + 1] + entries[i + 2..];
    }

    /** The walk of list_add: the node to overwrite, or the node to link after. */
    method Locate(entry: Entry) returns (current: Node, found: bool, ghost i: nat)
      requires Valid() && head != null && !Less(entry.key, entries[0].key)
      ensures found <==> current.entry.key == entry.key
      ensures !found ==> Less(current.entry.key, entry.key)
      ensures !found && current.next != null ==> Less(entry.key, current.next.entry.key)
      ensures i < |nodes| && current == nodes[i]
      ensures found ==> entries[i].key == entry.key
      ensures !found ==> Less(entries[i].key, entry.key)
      ensures !found && i + 1 < |nodes| ==> Less(entry.key, entries[i + 1].key)
    {
      current, i := head, 0;
      LessIsTotal(entry.key, current.entry.key);
      while current.next != null
        invariant 0 <= i < |nodes| && current == nodes[i]
        invariant entries[i].key == entry.key || Less(entries[i].key, entry.key)
        decreases |nodes| - i
      {
        assert current.next == nodes[i + 1];
        EntryCompareIsKeyOrder(entry, current.entry);
        EntryCompareIsKeyOrder(entry, current.next.entry);
        if EntryCompare(entry, current.entry) == 0 {
          return current, true, i;
        } else if EntryCompare(entry, current.next.entry) == -1 {
          return current, false, i;
        }
        LessIsTotal(entry.key, current.next.entry.key);
        current := current.next;
        i := i + 1;
      }
      assert i == |nodes| - 1;
      EntryCompareIsKeyOrder(entry, current.entry);
      LessIsTotal(entry.key, entry.key);
      return current, EntryCompare(entry, current.entry) == 0, i;
    }

    /** list_add: 0 when the key is new, 1 when its entry was replaced. */
    method Add(entry: Entry) returns (code: int)
      requires Valid()
      modifies Repr
      ensures Valid() && fresh(Repr - old(Repr))
      ensures entries == Insert(old(entries), entry)
      ensures code == if Find(old(entries), entry.key).Some? then 1 else 0
    {
      var newNode := new Node(entry);
      if head == null {
        LinkFront(newNode);
        return 0;
      }
      EntryCompareIsKeyOrder(entry, head.entry);
      if EntryCompare(entry, head.entry) == -1 {
        AddFront(entries, entry);
        LinkFront(newNode);
        return 0;
      }
      ghost var i: nat;
      var current, found;
      current, found, i := Locate(entry);
      assert current in Repr;
      if found {
        ReplaceAt(entries, entry, i);
        ReplaceEntry(current, entry, i);
        return 1;
      }
      AddBetween(entries, entry, i);
      LinkAfter(current, newNode, i);
      return 0;
    }

    /** list_size */
    method Size() returns (n: int)
      requires Valid()
      ensures n == |entries|
    {
      n := size;
    }

    /** list_get */
    method Get(key: CString) returns (entry: Option<Entry>)
      requires Valid()
      ensures entry.Some? <==> Find(entries, key).Some?
      ensures entry.Some? ==> entry.value == Entry(key, Find(entries, key).value)
    {
      var current := head;
      ghost var i := 0;
      while current != null
        invariant 0 <= i <= |nodes|
        invariant current == if i < |nodes| then nodes[i] else null
        invariant forall j :: 0 <= j < i ==> entries[j].key != key
        decreases |nodes| - i
      {
        if Same(current.entry.key, key) {
          FindAt(entries, i);
          return Some(current.entry);
        }
        current := current.next;
        i := i + 1;
      }
      FindAbsent(entries, key);
      return None;
    }

    /** list_get_keys: NULL for an empty list. */
    method GetKeys() returns (keys: Option<KeyArray>)
      requires Valid()
      ensures keys == None <==> entries == []
      ensures keys.Some? ==> fresh(keys.value) && keys.value[..] == Cells(Keys(entries))
      ensures keys.Some? ==> keys.value.Length == |entries| + 1 && keys.value[|entries|] == None
      ensures keys.Some? ==> forall i :: 0 <= i < |entries| ==> keys.value[i] == Some(entries[i].key)
    {
      if size <= 0 || head == null {
        return None;
      }
      var a := new Option<CString>[size + 1];
      var current := head;
      var i := 0;
      while i < size
        invariant 0 <= i <= size
        invariant current == if i < |nodes| then nodes[i] else null
        invariant forall j :: 0 <= j < i ==> a[j] == Some(entries[j].key)
      {
        a[i] := Some(current.entry.key);
        current := current.next;
        i := i + 1;
      }
      a[size] := None;
      assert a[..] == Cells(Keys(entries));
      return Some(a);
    }

    /** The walk of list_remove: the node before the one to unlink, if any. */
    method LocateBefore(key: CString) returns (current: Node, found: bool, ghost i: nat)
      requires Valid() && head != null && entries[0].key != key
      ensures i < |nodes| && current == nodes[i]
      ensures found ==> i + 1 < |nodes| && entries[i + 1].key == key
      ensures !found ==> forall j :: 0 <= j < |entries| ==> entries[j].key != key
      ensures forall j :: 0 <= j <= i ==> entries[j].key != key
    {
      current, i := head, 0;
      while current.next != null
        invariant 0 <= i < |nodes| && current == nodes[i]
        invariant forall j :: 0 <= j <= i ==> entries[j].key != key
        decreases |nodes| - i
      {
        assert current.next == nodes[i + 1];
        if Same(current.next.entry.key, key) {
          return current, true, i;
        }
        current := current.next;
        i := i + 1;
      }
      return current, false, i;
    }

    /** list_remove */
    method Remove(key: CString) returns (outcome: Outcome<int>)
      requires Valid()
      modifies Repr
      ensures Valid() && Repr == old(Repr)
      ensures entries == Delete(old(entries), key)
      ensures outcome == RemoveOutcome(old(entries), key)
    {
      if head == null {
        return Fault;  // current->entry with current NULL
      }
      StrcmpZero(head.entry.key, key);
      DeleteSorted(entries, key);
      if Strcmp(head.entry.key, key) == 0 {
        UnlinkHead();
        return Done(0);
      }
      ghost var i: nat;
      var current, found;
      current, found, i := LocateBefore(key);
      assert current in Repr;
      if !found {
        FindAbsent(entries, key);
        DeleteAt(entries, key, |entries|);
        return Done(1);
      }
      RemoveAfter(entries, key, i);
      UnlinkNext(current, i);
      return Done(0);
    }
  }

  // ---- the three places list_add writes to ----

  lemma AddFront(s: seq<Entry>, e: Entry)
    requires Sorted(s) && s != [] && Less(e.key, s[0].key)
    ensures Insert(s, e) == [e] + s && Sorted([e] + s)
    ensures Find(s, e.key) == None
  {
    InsertSorted(s, e);
    forall j | 0 <= j < |s| ensures s[j].key != e.key {
      if j > 0 { LessTransitive(e.key, s[0].key, s[j].key); }
      LessIsTotal(e.key, s[j].key);
    }
    FindAbsent(s, e.key);
  }

  lemma RemoveAfter(s: seq<Entry>, k: CString, i: nat)
    requires Sorted(s) && i + 1 < |s| && s[i + 1].key == k
    requires forall j :: 0 <= j <= i ==> s[j].key != k
    ensures Delete(s, k) == s[..i + 1] + s[i + 2..]
    ensures Find(s, k).Some?
  {
    FindAt(s, i + 1);
    DeleteAt(s, k, i + 1);
    assert s[i + 1..][1..] == s[i + 2..];
  }

  lemma ReplaceAt(s: seq<Entry>, e: Entry, i: nat)
    requires Sorted(s) && i < |s| && s[i].key == e.key
    ensures Insert(s, e) == s[i := e] && Sorted(s[i := e])
    ensures Find(s, e.key).Some?
  {
    InsertAfter(s, e, i);
    LessIsTotal(e.key, e.key);
    assert s[i..][1..] == s[i + 1..];
    assert s[i := e] == s[..i] + [e] + s[i + 1..];
    FindAt(s, i);
  }

  lemma AddBetween(s: seq<Entry>, e: Entry, i: nat)
    requires Sorted(s) && i < |s|
    requires Less(s[i].key, e.key)
    requires i + 1 < |s| ==> Less(e.key, s[i + 1].key)
    ensures Insert(s, e) == s[..i + 1] + [e] + s[i + 1..]
    ensures Sorted(s[..i + 1] + [e] + s[i + 1..])
    ensures Find(s, e.key) == None
  {
    forall j | 0 <= j <= i ensures Less(s[j].key, e.key) {
      if j < i { LessTransitive(s[j].key, s[i].key, e.key); }
    }
    InsertAfter(s, e, i + 1);
    InsertSorted(s, e);
    forall j | 0 <= j < |s| ensures s[j].key != e.key {
      if j > i + 1 { LessTransitive(e.key, s[i + 1].key, s[j].key); }
      LessIsTotal(e.key, s[j].key);
    }
    FindAbsent(s, e.key);
  }
}
