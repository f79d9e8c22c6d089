/** The server: its table, its place in the chain, and the requests it handles in place. */
module Servers {
  import opened CStrings
  import opened Hashing
  import opened Entries
  import opened Lists
  import opened Layouts
  import opened Operations
  import opened Topology
  import opened Messages
  import opened Sessions
  import T = Tables

  class Message {
    var opcode: int
    var cType: int
    var entry: Option<Entry>
    var key: CString
    var value: Block
    var result: int
    var keys: seq<CString>
    var entries: seq<Entry>

    function View(): Content
      reads this
    {
      Content(opcode, cType, entry, key, value, result, keys, entries)
    }

    constructor (c: Content)
      ensures View() == c
    {
      opcode, cType, entry, key := c.opcode, c.cType, c.entry, c.key;
      value, result, keys, entries := c.value, c.result, c.keys, c.entries;
    }

    /** A reply of this kind. */
    method Become(opcode: int, cType: int)
      modifies this`opcode, this`cType
      ensures View() == old(View()).(opcode := opcode, cType := cType)
    {
      this.opcode := opcode;
      this.cType := cType;
    }

    method Refuse()
      modifies this
      ensures View() == Refused(old(View()))
    {
      opcode := OP_ERROR;
      cType := CT_NONE;
    }
  }

  class Server {
    const table: T.Table
    var nodePath: Option<CString>
    var nextServerPath: CString
    var isTail: bool
    var sent: seq<Sent>  // what was handed to successors' connections

    ghost predicate Valid()
      reads this, table, table.view.repr
    {
      table.Valid() && this !in table.view.repr && |nextServerPath| < PATH_SIZE
    }

    ghost function At(): Position
      reads this
    {
      Position(nextServerPath, isTail)
    }

    ghost function Now(): State
      reads this, table
    {
      State(table.view.layout, table.view.contents, At(), sent)
    }

    /** server_skeleton_init once table_create has succeeded: no name yet, no successor, not tail. */
    constructor (table: T.Table)
      requires table.Valid()
      ensures Valid() && this.table == table
      ensures At() == Position([], false) && nodePath == None && sent == []
    {
      this.table := table;
      nodePath, nextServerPath, isTail, sent := None, [], false, [];
    }

    // ---- chain_watcher ----

    /** chain_watcher for a child event, children being ZooKeeper's answer if it gave one. The
        names are compared with a node_path that may not be set yet, and the last name is read
        also when there is none. */
    method ChainWatcher(children: Option<seq<CString>>) returns (outcome: Outcome<()>)
      requires Valid()
      modifies this`nextServerPath, this`isTail
      ensures Valid()
      ensures children == None ==> outcome == Done(()) && At() == old(At())
      ensures children.Some? ==> (outcome == Fault <==> children.value == [] || nodePath == None)
      ensures children.Some? && outcome.Done? ==> At() == Fitted(Watch(old(At()), nodePath.value, children.value))
    {
      if children == None {
        return Done(());
      }
      var sorted := SortNames(children.value);
      SortKeepsLength(children.value);
      if nodePath == None || sorted == [] {
        return Fault;
      }
      TakePlace(nodePath.value, sorted);
      isTail := Same(nodePath.value, sorted[|sorted| - 1]);
      return Done(());
    }

    /** The loop of chain_watcher; it does not stop at the first match. */
    method TakePlace(me: CString, sorted: seq<CString>)
      requires |nextServerPath| < PATH_SIZE
      modifies this`nextServerPath
      ensures nextServerPath == Cut(NextAfter(sorted, |sorted|, me, old(nextServerPath)))
    {
      var i := 0;
      while i < |sorted|
        invariant 0 <= i <= |sorted|
        invariant nextServerPath == Cut(NextAfter(sorted, i, me, old(nextServerPath)))
      {
        if Same(me, sorted[i]) {
          if i + 1 < |sorted| {
            nextServerPath := Cut(CHAIN_PREFIX + sorted[i + 1]);
          } else {
            nextServerPath := [];
          }
        }
        i := i + 1;
      }
    }

    // ---- invoke ----

    /** replicate_to_successor: a value makes it a PUT, none a DEL. */
    method ReplicateToSuccessor(key: CString, value: Option<Block>)
      modifies this`sent
      ensures Now() == Replicate(old(Now()), if value.Some? then Put(key, value.value) else Del(key))
    {
      if nextServerPath != [] {
        sent := sent + [Sent(nextServerPath, if value.Some? then Put(key, value.value) else Del(key))];
      }
    }

    /** What invoke does once a PUT or a DEL has changed the table: forward unless tail, and reply. */
    method ForwardAndReply(msg: Message, key: CString, value: Option<Block>, code: int)
      requires Valid() && msg !in table.view.repr
      modifies this`sent, msg`opcode, msg`cType
      ensures Valid()
      ensures Now() == ForwardUnlessTail(old(Now()), if value.Some? then Put(key, value.value) else Del(key))
      ensures msg.View() == old(msg.View()).(opcode := code, cType := CT_NONE)
    {
      if !isTail {
        ReplicateToSuccessor(key, value);
      }
      msg.Become(code, CT_NONE);
    }

    method InvokePut(msg: Message) returns (ok: bool)
      requires Valid() && msg !in table.view.repr && msg.opcode == OP_PUT
      modifies this`sent, msg, table.view.repr
      ensures Valid() && fresh(table.view.repr - old(table.view.repr))
      ensures var r := InvokedPut(old(Now()), old(msg.View()));
              Now() == r.state && if ok then r.reply == Done(msg.View()) else r.reply == Fault
    {
      ok := true;
      if msg.cType == CT_ENTRY {
        if msg.entry == None || !IsString(msg.entry.value.value) {
          return false;  // msg->entry->value with entry NULL; strdup of what is no string
        }
        var key, block := msg.entry.value.key, msg.entry.value.value;
        var code := table.Put(key, block);
        if code == 0 {  // table_put fails only for want of memory
          ForwardAndReply(msg, key, Some(block), OP_PUT + 1);
        }
      }
    }

    method InvokeDel(msg: Message) returns (ok: bool)
      requires Valid() && msg !in table.view.repr && msg.opcode == OP_DEL
      modifies this`sent, msg, table.view.repr
      ensures Valid() && fresh(table.view.repr - old(table.view.repr))
      ensures var r := InvokedDel(old(Now()), old(msg.View()));
              Now() == r.state && if ok then r.reply == Done(msg.View()) else r.reply == Fault
    {
      ok := true;
      if msg.cType == CT_KEY {
        RemoveChangesNothing(table.view.layout, table.view.contents, msg.key);
        var outcome := table.Remove(msg.key);
        if outcome == Fault {
          return false;
        }
        if outcome.value == 0 {
          ForwardAndReply(msg, msg.key, None, OP_DEL + 1);
        } else {
          msg.Refuse();
        }
      }
    }

    method InvokeGet(msg: Message)
      requires Valid() && msg !in table.view.repr && msg.opcode == OP_GET
      modifies msg
      ensures Answer(table.view.layout, table.view.contents, isTail, old(msg.View())) == Done(msg.View())
    {
      if isTail {
        if msg.cType == CT_KEY {
          var block := table.Get(msg.key);
          if block.Some? {
            msg.Become(OP_GET + 1, CT_VALUE);
            msg.value := block.value;
          } else {
            msg.Refuse();
          }
        }
      } else {
        msg.Refuse();
      }
    }

    method InvokeGetKeys(msg: Message)
      requires Valid() && msg !in table.view.repr && msg.opcode == OP_GETKEYS
      modifies msg
      ensures Answer(table.view.layout, table.view.contents, isTail, old(msg.View())) == Done(msg.View())
    {
      if isTail {
        if msg.cType == CT_NONE {
          var keys := table.GetKeys();
          if keys.Some? {
            var nKeys := table.Size();
            KeysAreStored(table.view.layout, table.view.contents);
            msg.keys := FirstKeys(keys.value, nKeys, KeysOf(table.view.layout));
            msg.Become(OP_GETKEYS + 1, CT_KEYS);
          } else {
            msg.Refuse();
          }
        }
      }
    }

    method InvokeGetTable(msg: Message) returns (ok: bool)
      requires Valid() && msg !in table.view.repr && msg.opcode == OP_GETTABLE
      modifies msg
      ensures var r := Answer(table.view.layout, table.view.contents, isTail, old(msg.View()));
              if ok then r == Done(msg.View()) else r == Fault
    {
      ok := true;
      if isTail {
        var size := table.Size();
        if size > 0 {
          var entries := FetchTable(table, size);
          if entries == None {
            return false;  // keys[0] with keys NULL
          }
          msg.Become(OP_GETTABLE + 1, CT_TABLE);
          msg.entries := entries.value;
        } else {
          msg.Refuse();
        }
      } else {
        msg.Refuse();
      }
    }

    /** invoke: the reply replaces the request; false if the server dies. */
    method Invoke(msg: Message) returns (ok: bool)
      requires Valid() && msg !in table.view.repr
      modifies this`sent, msg, table.view.repr
      ensures Valid() && fresh(table.view.repr - old(table.view.repr))
      ensures var r := Invoked(old(Now()), old(msg.View()));
              Now() == r.state && if ok then r.reply == Done(msg.View()) else r.reply == Fault
    {
      ok := true;
      if msg.opcode == OP_PUT {
        ok := InvokePut(msg);
      } else if msg.opcode == OP_GET {
        InvokeGet(msg);
      } else if msg.opcode == OP_DEL {
        ok := InvokeDel(msg);
      } else if msg.opcode == OP_SIZE {
        if isTail {
          var size := table.Size();
          msg.Become(OP_SIZE + 1, CT_RESULT);
          msg.result := size;
        } else {
          msg.Refuse();
        }
      } else if msg.opcode == OP_GETKEYS {
        InvokeGetKeys(msg);
      } else if msg.opcode == OP_GETTABLE {
        ok := InvokeGetTable(msg);
      } else if msg.opcode == OP_STATS {
        if isTail {
          if msg.cType == CT_NONE {
            msg.Become(OP_STATS + 1, CT_STATS);
          }
        } else {
          msg.Refuse();
        }
      } else {
        msg.Refuse();
      }
    }

    // ---- handle_client ----

    method HandleRequest(msg: Message) returns (ok: bool)
      requires Valid() && msg !in table.view.repr
      modifies this`sent, msg, table.view.repr
      ensures Valid() && fresh(table.view.repr - old(table.view.repr))
      ensures var r := Serve(old(Now()), old(msg.View()));
              Now() == r.state && if ok then r.reply == Done(msg.View()) else r.reply == Fault
    {
      ok := Invoke(msg);
      if ok && (msg.opcode == OP_PUT + 1 || msg.opcode == OP_DEL + 1) {
        if msg.entry == None {
          return false;  // msg->entry->key with entry NULL
        }
        ReplicateToSuccessor(msg.entry.value.key, Some(msg.entry.value.value));
      }
    }

    /** handle_client: serves the requests of one connection until there is none left. */
    method HandleClient(requests: seq<Content>) returns (outcome: Outcome<seq<Content>>)
      requires Valid()
      modifies this`sent, table.view.repr
      ensures Valid() && fresh(table.view.repr - old(table.view.repr))
      ensures (Now(), outcome) == ServeAll(old(Now()), requests)
      ensures Account(old(Now()), requests, Now(), outcome)
    {
      var replies: seq<Content> := [];
      var n := 0;
      ghost var start := Now();
      assert requests[0..] == requests;
      PrefixedNil(ServeAll(start, requests).1);
      while n < |requests|
        invariant 0 <= n <= |requests| && Valid() && fresh(table.view.repr - old(table.view.repr))
        invariant var rest := ServeAll(Now(), requests[n..]);
                  ServeAll(start, requests) == (rest.0, Prefixed(replies, rest.1))
      {
        var msg := new Message(requests[n]);
        assert requests[n..][1..] == requests[n + 1..];
        ServeKeepsTable(Now(), requests[n]);
        var ok := HandleRequest(msg);
        if !ok {
          ServeAllHasAccount(start, requests);
          return Fault;
        }
        PrefixedTwice(replies, [msg.View()], ServeAll(Now(), requests[n + 1..]).1);
        replies := replies + [msg.View()];
        n := n + 1;
      }
      assert requests[n..] == [] && replies + [] == replies;
      ServeAllHasAccount(start, requests);
      return Done(replies);
    }
  }

  lemma CellsHold(cells: seq<Option<CString>>, ks: seq<CString>)
    requires cells == Cells(ks)
    ensures |cells| == |ks| + 1 && forall i :: 0 <= i < |ks| ==> cells[i] == Some(ks[i])
  {
  }

  /** The first n cells of a key array, as the keys of a message. */
  method FirstKeys(a: KeyArray, n: int, ghost ks: seq<CString>) returns (keys: seq<CString>)
    requires n == |ks| && a[..] == Cells(ks)
    ensures keys == ks
  {
    CellsHold(a[..], ks);
    keys := [];
    var i := 0;
    while i < n
      invariant 0 <= i <= n && keys == ks[..i]
    {
      assert a[i] == a[..][i];
      keys := keys + [a[i].value];
      i := i + 1;
    }
  }

  /** The entries of a GETTABLE reply; None where the key list is NULL. */
  method FetchTable(table: T.Table, size: int) returns (entries: Option<seq<Entry>>)
    requires table.Valid() && size == |table.view.contents|
    ensures entries == None <==> TableKeys(table.view.layout) == None
    ensures KeysStored(table.view.layout, table.view.contents)
    ensures entries.Some? ==> entries.value == TableEntries(table.view.layout, table.view.contents)
  {
    KeysAreStored(table.view.layout, table.view.contents);
    var keys := table.GetKeys();
    if keys == None {
      return None;
    }
    ghost var ks, es := KeysOf(table.view.layout), TableEntries(table.view.layout, table.view.contents);
    assert Keys(es) == ks;
    assert forall i :: 0 <= i < |ks| ==> ks[i] in ks;
    var found := CollectEntries(table, keys.value, size, es);
    return Some(found);
  }

  /** The loop of GETTABLE: one table_get for each key listed. */
  method CollectEntries(table: T.Table, a: KeyArray, size: int, ghost es: seq<Entry>) returns (entries: seq<Entry>)
    requires table.Valid() && size == |es| && a[..] == Cells(Keys(es))
    requires forall i :: 0 <= i < |es| ==>
               es[i].key in table.view.contents && es[i].value == table.view.contents[es[i].key]
    ensures entries == es
  {
    CellsHold(a[..], Keys(es));
    entries := [];
    var i := 0;
    while i < size
      invariant 0 <= i <= size && entries == es[..i]
    {
      assert a[i] == a[..][i];
      var entry := FetchEntry(table, a[i].value, es[i]);
      entries := entries + [entry];
      i := i + 1;
    }
  }

  method FetchEntry(table: T.Table, key: CString, ghost e: Entry) returns (entry: Entry)
    requires table.Valid() && key in table.view.contents && e == Entry(key, table.view.contents[key])
    ensures entry == e
  {
    var block := table.Get(key);
    return Entry(key, block.value);
  }

  /** Removing an absent key leaves table and map as they are. */
  lemma RemoveChangesNothing(l: Layout, m: Store, k: CString)
    requires Represents(l, m)
    ensures k !in m ==> RemoveLayout(l, k) == l && m - {k} == m
    ensures TableRemoveOutcome(l, k) ==
            if l[Slot(k, |l|)] == [] then Fault else if k in m then Done(0) else Done(1)
  {
    RemoveRepresents(l, m, k);
    if k !in m {
      assert m - {k} == m;
      LayoutIsCanonical(RemoveLayout(l, k), l, m);
    }
  }

  // ---- the client's side ----

  /** No name of the list is greater. */
  ghost predicate Greatest(n: CString, names: seq<CString>) {
    n in names && forall m :: m in names ==> !Less(n, m)
  }

  /** get_tail_address up to the query for the address: NULL if ZooKeeper gave no children; the
      last name is read also when there is none. Otherwise the path of the greatest name. */
  method GetTailPath(children: Option<seq<CString>>) returns (outcome: Outcome<Option<CString>>)
    ensures children == None ==> outcome == Done(None)
    ensures children.Some? && children.value == [] ==> outcome == Fault
    ensures children.Some? && children.value != [] ==>
              outcome.Done? && exists n :: Greatest(n, children.value) && outcome.value == Some(Cut(CHAIN_PREFIX + n))
  {
    if children == None {
      return Done(None);
    }
    var sorted := SortNames(children.value);
    SortKeepsLength(children.value);
    if sorted == [] {
      return Fault;
    }
    LastNameIsGreatest(children.value);
    return Done(Some(Cut(CHAIN_PREFIX + sorted[|sorted| - 1])));
  }

  lemma LastNameIsGreatest(names: seq<CString>)
    requires SortNames(names) != []
    ensures var s := SortNames(names); Greatest(s[|s| - 1], names)
  {
    var s := SortNames(names);
    SortNamesSorts(names);
    assert s[|s| - 1] in multiset(s);
    forall m | m in names ensures !Less(s[|s| - 1], m) {
      assert m in multiset(s);
      LastIsGreatest(s, m);
    }
  }
}
