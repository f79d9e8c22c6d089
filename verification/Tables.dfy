/** The hash table of sorted lists, changed in place. */
module Tables {
  import opened CStrings
  import opened Hashing
  import opened Entries
  import opened Lists
  import opened Layouts

  /** What a table is meant to hold: its lists, their contents slot by slot, the map these
      stand for, the objects it is made of, and the slot each list object belongs to. */
  datatype View = View(lists: seq<List>, layout: Layout, contents: Store,
                       repr: set<object>, owner: map<object, nat>)

  class Table {
    var slots: array<List>
    ghost var view: View

    /** The slots are valid lists with the contents the view gives, and no two of them share
        storage, since owner tells which slot an object belongs to. */
    ghost predicate Structure()
      reads this, view.repr
    {
      StructureBut(-1)
    }

    /** Structure, except that slot x has just changed. */
    ghost predicate StructureBut(x: int)
      reads this, view.repr
    {
      && this in view.repr && slots in view.repr && this !in view.owner && slots !in view.owner
      && slots[..] == view.lists && |view.layout| == |view.lists|
      && view.owner.Keys <= view.repr
      && (forall i :: 0 <= i < |view.lists| ==> view.lists[i] in view.repr)
      && (forall i, o {:trigger o in view.lists[i].Repr} ::
           0 <= i < |view.lists| && i != x && o in view.lists[i].Repr ==> o in view.owner && view.owner[o] == i)
      && (forall i :: 0 <= i < |view.lists| && i != x ==>
           view.lists[i] in view.lists[i].Repr && view.lists[i].Valid() && view.lists[i].entries == view.layout[i])
    }

    ghost predicate Valid()
      reads this, view.repr
    {
      Structure() && Represents(view.layout, view.contents)
    }

    /** table_create past its test of n, which Create holds. */
    constructor (n: nat)
      requires n > 0
      ensures Valid() && fresh(view.repr)
      ensures view.contents == map[] && slots.Length == n && |view.layout| == n
    {
      ghost var lists: seq<List>;
      ghost var owner: map<object, nat>;
      var a: array<List>;
      a, lists, owner := CreateSlots(n);
      slots := a;
      new;
      EmptyRepresents(n);
      view := View(lists, seq(n, _ => []), map[], {this, a} + owner.Keys, owner);
    }

    /** table_create: NULL for a slot count that is not positive. */
    static method Create(n: int) returns (t: Table?)
      ensures t == null <==> n <= 0
      ensures t != null ==> t.Valid() && fresh(t.view.repr) && t.view.contents == map[] && |t.view.layout| == n
    {
      if n <= 0 {
        return null;
      }
      t := new Table(n);
    }

    ghost method Refresh(i: nat, m: Store)
      requires StructureBut(i) && i < |view.lists|
      requires view.lists[i].Valid() && view.lists[i] in view.lists[i].Repr
      requires forall o :: o in view.lists[i].Repr ==>
        o != this && o != slots && (o in view.owner ==> view.owner[o] == i)
      modifies this`view
      ensures Structure() && view.repr == old(view.repr) + old(view.lists[i].Repr)
      ensures view.layout == old(view.layout[i := view.lists[i].entries])
      ensures view.contents == m
    {
      var list := view.lists[i];
      view := View(view.lists, view.layout[i := list.entries], m, view.repr + list.Repr,
                   view.owner + map o | o in list.Repr :: i);
    }

    method AddToSlot(i: nat, entry: Entry, ghost m: Store) returns (code: int)
      requires Structure() && i < slots.Length
      modifies view.repr
      ensures Structure() && fresh(view.repr - old(view.repr)) && slots == old(slots)
      ensures view.layout == old(view.layout)[i := Insert(old(view.layout)[i], entry)]
      ensures view.contents == m
      ensures code == 0 || code == 1
    {
      var list := slots[i];
      assert list == view.lists[i];
      code := list.Add(entry);
      Refresh(i, m);
    }

    method RemoveFromSlot(i: nat, key: CString, ghost m: Store) returns (outcome: Outcome<int>)
      requires Structure() && i < slots.Length
      modifies view.repr
      ensures Structure() && fresh(view.repr - old(view.repr)) && slots == old(slots)
      ensures view.layout == old(view.layout)[i := Delete(old(view.layout)[i], key)]
      ensures view.contents == m
      ensures outcome == RemoveOutcome(old(view.layout)[i], key)
    {
      var list := slots[i];
      assert list == view.lists[i];
      outcome := list.Remove(key);
      Refresh(i, m);
    }

    /** The slot part of table_put: an entry of the same key is removed, then the new one added. */
    method ReplaceInSlot(i: nat, entry: Entry, ghost m: Store) returns (code: int)
      requires Structure() && i < slots.Length
      modifies view.repr
      ensures Structure() && fresh(view.repr - old(view.repr)) && slots == old(slots)
      ensures view.layout == old(view.layout)[i := Insert(old(view.layout)[i], entry)]
      ensures view.contents == m
      ensures code == 0 || code == 1
    {
      ghost var was := view.layout[i];
      assert slots[i] == view.lists[i];
      InsertOverDelete(was, entry);
      var existing := slots[i].Get(entry.key);
      if existing.Some? {
        var _ := RemoveFromSlot(i, entry.key, m);
      }
      code := AddToSlot(i, entry, m);
    }

    /** table_put: 0, since every argument here is there. */
    method Put(key: CString, value: Block) returns (code: int)
      requires Valid()
      modifies view.repr
      ensures Valid() && fresh(view.repr - old(view.repr)) && slots == old(slots)
      ensures view.contents == old(view.contents)[key := value]
      ensures view.layout == PutLayout(old(view.layout), Entry(key, value))
      ensures code == 0
    {
      var entry := Entry(key, value);
      PutRepresents(view.layout, view.contents, entry);
      var i := Hash(key, slots.Length);
      var result := ReplaceInSlot(i, entry, view.contents[key := value]);
      if result == -1 {
        return -1;
      }
      return 0;
    }

    /** table_get */
    method Get(key: CString) returns (value: Option<Block>)
      requires Valid()
      ensures value == At(view.contents, key)
    {
      var i := Hash(key, slots.Length);
      var entry := slots[i].Get(key);
      assert At(view.contents, key) == Find(view.layout[Slot(key, |view.layout|)], key);
      if entry == None {
        return None;
      }
      return Some(entry.value.value);
    }

    /** table_remove */
    method Remove(key: CString) returns (outcome: Outcome<int>)
      requires Valid()
      modifies view.repr
      ensures Valid() && fresh(view.repr - old(view.repr)) && slots == old(slots)
      ensures view.contents == old(view.contents) - {key}
      ensures view.layout == RemoveLayout(old(view.layout), key)
      ensures outcome == if old(view.layout)[Slot(key, slots.Length)] == [] then Fault
                         else if key in old(view.contents) then Done(0) else Done(1)
    {
      RemoveRepresents(view.layout, view.contents, key);
      var i := Hash(key, slots.Length);
      outcome := RemoveFromSlot(i, key, view.contents - {key});
    }

    /** table_size */
    method Size() returns (size: int)
      requires Valid()
      ensures size == |view.contents| == Count(view.layout)
    {
      size := 0;
      var i := 0;
      while i < slots.Length
        invariant 0 <= i <= slots.Length && size == Count(view.layout[..i])
      {
        var n := slots[i].Size();
        assert view.layout[..i + 1][..i] == view.layout[..i];
        size := size + n;
        i := i + 1;
      }
      assert view.layout[..i] == view.layout;
      KeyListIsDomain(view.layout, view.contents);
    }

    /** table_get_keys: NULL as soon as some slot is empty. */
    method GetKeys() returns (keys: Option<KeyArray>)
      requires Valid()
      ensures keys == None <==> TableKeys(view.layout) == None
      ensures keys.Some? ==> fresh(keys.value) && keys.value[..] == Cells(TableKeys(view.layout).value)
      ensures keys.Some? ==> keys.value.Length == |view.contents| + 1
    {
      KeyListIsDomain(view.layout, view.contents);
      var size := Size();
      var a := new Option<CString>[size + 1];
      keys := CollectKeys(a);
    }

    method SlotKeys(i: nat) returns (keys: Option<KeyArray>)
      requires Structure() && i < slots.Length
      ensures keys == None <==> view.layout[i] == []
      ensures keys.Some? ==> fresh(keys.value) && keys.value[..] == Cells(Keys(view.layout[i]))
    {
      assert slots[i] == view.lists[i];
      keys := slots[i].GetKeys();
    }

    method CollectKeys(a: KeyArray) returns (keys: Option<KeyArray>)
      requires Structure() && a !in view.repr && a.Length == Count(view.layout) + 1
      modifies a
      ensures keys == None <==> TableKeys(view.layout) == None
      ensures keys.Some? ==> keys.value == a && a[..] == Cells(KeysOf(view.layout))
    {
      ghost var l := view.layout;
      var n := 0;
      var i := 0;
      while i < slots.Length
        invariant Structure() && view.layout == l
        invariant 0 <= i <= slots.Length && [] !in l[..i]
        invariant n == Count(l[..i]) < a.Length
        invariant Holds(a[..n], KeysOf(l[..i]))
      {
        var slotKeys := SlotKeys(i);
        KeysStep(l, i);
        if slotKeys == None {
          return None;
        }
        n := CopyKeys(a, n, slotKeys.value, KeysOf(l[..i]), Keys(l[i]));
        i := i + 1;
      }
      assert l[..i] == l;
      a[n] := None;
      HoldsAll(a[..], KeysOf(l));
      return Some(a);
    }
  }

  lemma KeysStep(l: Layout, i: nat)
    requires i < |l| && [] !in l[..i]
    ensures l[i] == [] ==> TableKeys(l) == None
    ensures l[i] != [] ==> [] !in l[..i + 1]
    ensures KeysOf(l[..i + 1]) == KeysOf(l[..i]) + Keys(l[i])
    ensures Count(l[..i + 1]) == Count(l[..i]) + |l[i]| <= Count(l)
  {
    assert l[..i + 1][..i] == l[..i];
    CountPrefix(l, i);
    assert l[i] in l;
  }

  /** The loop of table_create. */
  method CreateSlots(n: nat) returns (a: array<List>, ghost lists: seq<List>, ghost owner: map<object, nat>)
    ensures fresh(a) && a[..] == lists && |lists| == n && a !in owner && fresh(owner.Keys)
    ensures forall j :: 0 <= j < n ==>
      lists[j] in owner && lists[j] in lists[j].Repr && lists[j].Valid() && lists[j].entries == []
    ensures forall j, o {:trigger o in lists[j].Repr} ::
              0 <= j < n && o in lists[j].Repr ==> o in owner && owner[o] == j
  {
    var dummy := new List();
    a := new List[n](_ => dummy);
    lists, owner := [], map[];
    var i := 0;
    while i < n
      invariant 0 <= i <= n && fresh(a) && a.Length == n && a[..i] == lists
      invariant a !in owner && fresh(owner.Keys)
      invariant forall j :: 0 <= j < i ==>
        lists[j] in owner && lists[j] in lists[j].Repr && lists[j].Valid() && lists[j].entries == []
      invariant forall j, o {:trigger o in lists[j].Repr} ::
                  0 <= j < i && o in lists[j].Repr ==> o in owner && owner[o] == j
    {
      var list := new List();
      a[i] := list;
      lists := lists + [list];
      owner := owner + map o | o in list.Repr :: i;
      i := i + 1;
    }
  }

  /** The cells hold exactly these keys. */
  ghost predicate Holds(cells: seq<Option<CString>>, ks: seq<CString>) {
    |cells| == |ks| && forall j :: 0 <= j < |ks| ==> cells[j] == Some(ks[j])
  }

  lemma HoldsAll(cells: seq<Option<CString>>, ks: seq<CString>)
    requires |cells| == |ks| + 1 && Holds(cells[..|ks|], ks) && cells[|ks|] == None
    ensures cells == Cells(ks)
  {
    assert forall j :: 0 <= j < |ks| ==> cells[..|ks|][j] == cells[j];
  }

  /** The inner loop of table_get_keys. */
  method CopyKeys(a: KeyArray, start: nat, from: KeyArray, ghost before: seq<CString>, ghost ks: seq<CString>)
    returns (n: nat)
    requires a != from && from[..] == Cells(ks)
    requires start + |ks| < a.Length && Holds(a[..start], before)
    modifies a
    ensures n == start + |ks| && Holds(a[..n], before + ks)
  {
    n := start;
    var slotI := 0;
    assert forall j :: 0 <= j < from.Length ==> from[..][j] == from[j];
    assert a[..n] == a[..start] && before + ks[..0] == before;
    while from[slotI] != None
      invariant 0 <= slotI <= |ks| && n == start + slotI
      invariant from[..] == Cells(ks)
      invariant Holds(a[..n], before + ks[..slotI])
      decreases |ks| - slotI
    {
      ghost var was := a[..n];
      a[n] := from[slotI];
      assert a[..n + 1] == was + [Some(ks[slotI])];
      n := n + 1;
      slotI := slotI + 1;
    }
    assert ks[..slotI] == ks;
  }

  lemma {:induction false} CountPrefix(l: Layout, i: nat)
    requires i < |l|
    ensures Count(l[..i]) + |l[i]| <= Count(l)
  {
    var rest := l[..|l| - 1];
    if i < |rest| {
      CountPrefix(rest, i);
      assert rest[..i] == l[..i];
    } else {
      assert rest == l[..i];
    }
  }
}
