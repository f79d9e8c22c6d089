/** Key-value entries, their order, and what a strictly sorted run of entries means. */
module Entries {
  import opened CStrings

  /** The bytes of a block_t. */
  type Block = seq<byte>

  datatype Entry = Entry(key: CString, value: Block)

  /** The map a replica stands for. */
  type Store = map<CString, Block>

  function At(m: Store, k: CString): Option<Block> {
    if k in m then Some(m[k]) else None
  }

  lemma StoresEqual(a: Store, b: Store)
    requires forall k :: At(a, k) == At(b, k)
    ensures a == b
  {
    assert forall k: CString :: k in a <==> At(a, k).Some?;
    assert forall k: CString :: k in b <==> At(b, k).Some?;
    assert forall k | k in a :: a[k] == At(a, k).value == At(b, k).value == b[k];
  }

  /** entry_compare: only -1, 0 and 1, since entries here always carry a key. */
  function EntryCompare(e1: Entry, e2: Entry): int {
    var comparison := Strcmp(e1.key, e2.key);
    if comparison == 0 then 0 else if comparison < 0 then -1 else 1
  }

  lemma EntryCompareIsKeyOrder(e1: Entry, e2: Entry)
    ensures EntryCompare(e1, e2) == -1 <==> Less(e1.key, e2.key)
    ensures EntryCompare(e1, e2) == 0 <==> e1.key == e2.key
    ensures EntryCompare(e1, e2) == 1 <==> Less(e2.key, e1.key)
  {
    LessIsTotal(e1.key, e2.key);
    StrcmpZero(e1.key, e2.key);
    StrcmpSwap(e1.key, e2.key);
  }

  ghost predicate Sorted(s: seq<Entry>) {
    forall i, j {:trigger Less(s[i].key, s[j].key)} :: 0 <= i < j < |s| ==> Less(s[i].key, s[j].key)
  }

  /** The value stored under k. */
  function Find(s: seq<Entry>, k: CString): Option<Block> {
    if s == [] then None
    else if s[0].key == k then Some(s[0].value)
    else Find(s[1..], k)
  }

  /** Sorted insertion, replacing the entry of an equal key. */
  function Insert(s: seq<Entry>, e: Entry): seq<Entry> {
    if s == [] then [e]
    else if Less(e.key, s[0].key) then [e] + s
    else if s[0].key == e.key then [e] + s[1..]
    else [s[0]] + Insert(s[1..], e)
  }

  /** s without the entry of key k. */
  function Delete(s: seq<Entry>, k: CString): seq<Entry> {
    if s == [] then []
    else if s[0].key == k then s[1..]
    else [s[0]] + Delete(s[1..], k)
  }

  function Keys(s: seq<Entry>): seq<CString> {
    seq(|s|, i requires 0 <= i < |s| => s[i].key)
  }

  // ---- Find, Insert and Delete by position ----

  lemma {:induction false} FindAt(s: seq<Entry>, i: nat)
    requires Sorted(s) && i < |s|
    ensures Find(s, s[i].key) == Some(s[i].value)
  {
    if i > 0 {
      LessIsTotal(s[0].key, s[i].key);
      FindAt(s[1..], i - 1);
    }
  }

  lemma {:induction false} FindAbsent(s: seq<Entry>, k: CString)
    ensures Find(s, k) == None <==> forall i :: 0 <= i < |s| ==> s[i].key != k
  {
    if s != [] {
      FindAbsent(s[1..], k);
      assert forall i :: 0 < i < |s| ==> s[i] == s[1..][i - 1];
    }
  }

  lemma KeysMember(s: seq<Entry>, k: CString)
    ensures k in Keys(s) <==> Find(s, k).Some?
  {
    FindAbsent(s, k);
    assert forall i :: 0 <= i < |s| ==> Keys(s)[i] == s[i].key;
  }

  lemma {:induction false} InsertAfter(s: seq<Entry>, e: Entry, i: nat)
    requires i <= |s|
    requires forall j :: 0 <= j < i ==> Less(s[j].key, e.key)
    ensures Insert(s, e) == s[..i] + Insert(s[i..], e)
  {
    if i > 0 {
      LessIsTotal(s[0].key, e.key);
      InsertAfter(s[1..], e, i - 1);
      assert s[1..][i - 1..] == s[i..];
      assert s[..i] == [s[0]] + s[1..][..i - 1];
      assert Insert(s, e) == [s[0]] + (s[1..][..i - 1] + Insert(s[i..], e));
    }
  }

  lemma {:induction false} DeleteAt(s: seq<Entry>, k: CString, i: nat)
    requires i <= |s|
    requires forall j :: 0 <= j < i ==> s[j].key != k
    ensures Delete(s, k) == s[..i] + Delete(s[i..], k)
  {
    if i > 0 {
      DeleteAt(s[1..], k, i - 1);
      assert s[1..][i - 1..] == s[i..];
      assert s[..i] == [s[0]] + s[1..][..i - 1];
      assert Delete(s, k) == [s[0]] + (s[1..][..i - 1] + Delete(s[i..], k));
    }
  }

  // ---- what Insert and Delete mean ----

  lemma {:induction false} InsertKeys(s: seq<Entry>, e: Entry)
    ensures forall x :: x in Insert(s, e) ==> x == e || x in s
  {
    if s != [] {
      InsertKeys(s[1..], e);
    }
  }

  lemma {:induction false} InsertSorted(s: seq<Entry>, e: Entry)
    requires Sorted(s)
    ensures Sorted(Insert(s, e))
  {
    if s == [] {
    } else if Less(e.key, s[0].key) {
      forall j | 0 < j < |s| ensures Less(e.key, s[j].key) {
        LessTransitive(e.key, s[0].key, s[j].key);
      }
    } else if s[0].key == e.key {
    } else {
      LessIsTotal(e.key, s[0].key);
      InsertSorted(s[1..], e);
      InsertKeys(s[1..], e);
      var r := Insert(s[1..], e);
      forall j | 0 <= j < |r| ensures Less(s[0].key, r[j].key) {
        assert r[j] in r;
      }
    }
  }

  lemma {:induction false} FindInsert(s: seq<Entry>, e: Entry, k: CString)
    requires Sorted(s)
    ensures Find(Insert(s, e), k) == if k == e.key then Some(e.value) else Find(s, k)
  {
    if s == [] {
    } else if Less(e.key, s[0].key) {
      assert ([e] + s)[1..] == s;
    } else if s[0].key == e.key {
      assert ([e] + s[1..])[1..] == s[1..];
    } else {
      FindInsert(s[1..], e, k);
      assert ([s[0]] + Insert(s[1..], e))[1..] == Insert(s[1..], e);
    }
  }

  lemma {:induction false} DeleteKeys(s: seq<Entry>, k: CString)
    ensures forall x :: x in Delete(s, k) ==> x in s
  {
    if s != [] {
      DeleteKeys(s[1..], k);
    }
  }

  lemma {:induction false} DeleteSorted(s: seq<Entry>, k: CString)
    requires Sorted(s)
    ensures Sorted(Delete(s, k))
  {
    if s != [] && s[0].key != k {
      DeleteSorted(s[1..], k);
      DeleteKeys(s[1..], k);
      var r := Delete(s[1..], k);
      forall j | 0 <= j < |r| ensures Less(s[0].key, r[j].key) {
        assert r[j] in r;
      }
    }
  }

  lemma {:induction false} FindDelete(s: seq<Entry>, key: CString, k: CString)
    requires Sorted(s)
    ensures Find(Delete(s, key), k) == if k == key then None else Find(s, k)
  {
    if s == [] {
    } else if s[0].key == key {
      FindAbsent(s[1..], key);
      LessIsTotal(key, key);
    } else {
      FindDelete(s[1..], key, k);
      assert ([s[0]] + Delete(s[1..], key))[1..] == Delete(s[1..], key);
    }
  }

  /** A sorted run of entries is determined by what it stores: the layout is canonical. */
  lemma {:induction false} SortedIsCanonical(s: seq<Entry>, t: seq<Entry>)
    requires Sorted(s) && Sorted(t)
    requires forall k :: Find(s, k) == Find(t, k)
    ensures s == t
  {
    if s == [] || t == [] {
      assert s != [] ==> Find(s, s[0].key).Some?;
      assert t != [] ==> Find(t, t[0].key).Some?;
    } else {
      HeadIsLeast(s, t);
      HeadIsLeast(t, s);
      LessIsTotal(s[0].key, t[0].key);
      assert Find(s, s[0].key) == Find(t, s[0].key);
      assert s[0] == t[0];
      forall k ensures Find(s[1..], k) == Find(t[1..], k) {
        FindAbsent(s[1..], s[0].key);
        FindAbsent(t[1..], t[0].key);
        LessIsTotal(s[0].key, s[0].key);
        assert Find(s, k) == Find(t, k);
      }
      SortedIsCanonical(s[1..], t[1..]);
      assert s == [s[0]] + s[1..] && t == [t[0]] + t[1..];
    }
  }

  lemma HeadIsLeast(s: seq<Entry>, t: seq<Entry>)
    requires Sorted(t) && s != [] && t != []
    requires Find(s, s[0].key) == Find(t, s[0].key)
    ensures s[0].key == t[0].key || Less(t[0].key, s[0].key)
  {
    FindAbsent(t, s[0].key);
    var i :| 0 <= i < |t| && t[i].key == s[0].key;
  }

  /** list_add over an existing key equals removing it first, which is what table_put does. */
  lemma {:induction false} InsertOverDelete(s: seq<Entry>, e: Entry)
    requires Sorted(s)
    ensures Insert(Delete(s, e.key), e) == Insert(s, e)
  {
    DeleteSorted(s, e.key);
    InsertSorted(Delete(s, e.key), e);
    InsertSorted(s, e);
    forall k ensures Find(Insert(Delete(s, e.key), e), k) == Find(Insert(s, e), k) {
      FindInsert(Delete(s, e.key), e, k);
      FindInsert(s, e, k);
      FindDelete(s, e.key, k);
    }
    SortedIsCanonical(Insert(Delete(s, e.key), e), Insert(s, e));
  }
}
