/** Requests and replies, and what a server makes of a request: the meaning invoke and the
    request loop of handle_client are held to. */
module Messages {
  import opened CStrings
  import opened Hashing
  import opened Entries
  import opened Lists
  import opened Layouts
  import opened Operations
  import opened Topology
  import N = Networks

  const OP_PUT := 10
  const OP_GET := 20
  const OP_DEL := 30
  const OP_SIZE := 40
  const OP_GETKEYS := 50
  const OP_GETTABLE := 60
  const OP_STATS := 70
  const OP_ERROR := 99

  const CT_ENTRY := 10
  const CT_KEY := 20
  const CT_VALUE := 30
  const CT_RESULT := 40
  const CT_KEYS := 50
  const CT_TABLE := 60
  const CT_STATS := 65
  const CT_NONE := 70

  /** The fields of a MessageT; entry may be missing. */
  datatype Content = Content(opcode: int, cType: int, entry: Option<Entry>, key: CString, value: Block,
                             result: int, keys: seq<CString>, entries: seq<Entry>)

  /** A message handed to the connection to the path. */
  datatype Sent = Sent(path: CString, op: Op)

  datatype State = State(layout: Layout, store: Store, at: Position, sent: seq<Sent>)

  /** The state after a request, and the reply unless the server dies on the way. */
  datatype Served = Served(state: State, reply: Outcome<Content>)

  function Refused(c: Content): Content {
    c.(opcode := OP_ERROR, cType := CT_NONE)
  }

  function Replicate(s: State, op: Op): State {
    if s.at.next == [] then s else s.(sent := s.sent + [Sent(s.at.next, op)])
  }

  /** invoke's own forward. */
  function ForwardUnlessTail(s: State, op: Op): State {
    if s.at.isTail then s else Replicate(s, op)
  }

  ghost predicate KeysStored(l: Layout, m: Store) {
    forall k :: k in KeysOf(l) ==> k in m
  }

  /** The entries of a table in key-list order. */
  ghost function TableEntries(l: Layout, m: Store): seq<Entry>
    requires KeysStored(l, m)
  {
    seq(|KeysOf(l)|, i requires 0 <= i < |KeysOf(l)| => Entry(KeysOf(l)[i], m[KeysOf(l)[i]]))
  }

  lemma KeysAreStored(l: Layout, m: Store)
    requires Represents(l, m)
    ensures KeysStored(l, m)
    ensures |KeysOf(l)| == |m| == Count(l)
  {
    KeyListIsDomain(l, m);
    forall k | k in KeysOf(l) ensures k in m {
      assert k in (set x | x in KeysOf(l));
    }
  }

  /** strdup copies the value up to its first NUL, and then as many bytes are used as the message
      said there were: anything but a string is read past its end, in the message or in the copy. */
  function InvokedPut(s: State, c: Content): Served
    requires |s.layout| > 0
  {
    if c.cType != CT_ENTRY then Served(s, Done(c))
    else if c.entry == None || !IsString(c.entry.value.value) then Served(s, Fault)
    else
      var op := Put(c.entry.value.key, c.entry.value.value);
      Served(ForwardUnlessTail(s.(layout := PutLayout(s.layout, c.entry.value), store := Apply(s.store, op)), op),
             Done(c.(opcode := OP_PUT + 1, cType := CT_NONE)))
  }

  function InvokedDel(s: State, c: Content): Served
    requires |s.layout| > 0
  {
    if c.cType != CT_KEY then Served(s, Done(c))
    else match TableRemoveOutcome(s.layout, c.key)
         case Fault => Served(s, Fault)
         case Done(code) =>
           if code != 0 then Served(s, Done(Refused(c)))
           else
             var s' := s.(layout := RemoveLayout(s.layout, c.key), store := Apply(s.store, Del(c.key)));
             Served(ForwardUnlessTail(s', Del(c.key)), Done(c.(opcode := OP_DEL + 1, cType := CT_NONE)))
  }

  /** The answers that leave the state alone. */
  ghost function Answer(l: Layout, m: Store, isTail: bool, c: Content): Outcome<Content>
    requires Represents(l, m)
  {
    KeysAreStored(l, m);
    if c.opcode == OP_GETKEYS then
      if !isTail || c.cType != CT_NONE then Done(c)
      else match TableKeys(l)
           case Some(keys) => Done(c.(opcode := OP_GETKEYS + 1, cType := CT_KEYS, keys := keys))
           case None => Done(Refused(c))
    else if !isTail then Done(Refused(c))
    else if c.opcode == OP_GET then
      if c.cType != CT_KEY then Done(c)
      else match At(m, c.key)
           case Some(v) => Done(c.(opcode := OP_GET + 1, cType := CT_VALUE, value := v))
           case None => Done(Refused(c))
    else if c.opcode == OP_SIZE then Done(c.(opcode := OP_SIZE + 1, cType := CT_RESULT, result := |m|))
    else if c.opcode == OP_GETTABLE then
      if |m| == 0 then Done(Refused(c))
      else if TableKeys(l) == None then Fault
      else Done(c.(opcode := OP_GETTABLE + 1, cType := CT_TABLE, entries := TableEntries(l, m)))
    else if c.opcode == OP_STATS then
      if c.cType != CT_NONE then Done(c) else Done(c.(opcode := OP_STATS + 1, cType := CT_STATS))
    else Done(Refused(c))
  }

  ghost function Invoked(s: State, c: Content): Served
    requires Represents(s.layout, s.store)
  {
    if c.opcode == OP_PUT then InvokedPut(s, c)
    else if c.opcode == OP_DEL then InvokedDel(s, c)
    else Served(s, Answer(s.layout, s.store, s.at.isTail, c))
  }

  /** handle_client's own forward after a successful PUT or DEL: always an entry, as a PUT. */
  function SecondForward(r: Served): Served {
    match r.reply
    case Fault => r
    case Done(c) =>
      if c.opcode != OP_PUT + 1 && c.opcode != OP_DEL + 1 then r
      else match c.entry
           case None => r.(reply := Fault)
           case Some(e) => r.(state := Replicate(r.state, Put(e.key, e.value)))
  }

  ghost function Serve(s: State, c: Content): Served
    requires Represents(s.layout, s.store)
  {
    SecondForward(Invoked(s, c))
  }

  lemma InvokedKeepsTable(s: State, c: Content)
    requires Represents(s.layout, s.store)
    ensures var s' := Invoked(s, c).state;
            && Represents(s'.layout, s'.store) && |s'.layout| == |s.layout| && s'.at == s.at
  {
    if c.opcode == OP_PUT && c.entry.Some? {
      PutRepresents(s.layout, s.store, c.entry.value);
    } else if c.opcode == OP_DEL {
      RemoveRepresents(s.layout, s.store, c.key);
    }
  }

  lemma ServeKeepsTable(s: State, c: Content)
    requires Represents(s.layout, s.store)
    ensures var s' := Serve(s, c).state;
            && Represents(s'.layout, s'.store) && |s'.layout| == |s.layout| && s'.at == s.at
  {
    InvokedKeepsTable(s, c);
    var i, r := Invoked(s, c).state, Serve(s, c).state;
    assert r.layout == i.layout && r.store == i.store && r.at == i.at;
  }

  // ---- the requests clients and servers send ----

  function PutRequest(k: CString, v: Block): Content {
    Content(OP_PUT, CT_ENTRY, Some(Entry(k, v)), [], [], 0, [], [])
  }

  function DelRequest(k: CString): Content {
    Content(OP_DEL, CT_KEY, None, k, [], 0, [], [])
  }

  function GetRequest(k: CString): Content {
    Content(OP_GET, CT_KEY, None, k, [], 0, [], [])
  }

  function SentCopies(path: CString, op: Op, n: nat): seq<Sent> {
    seq(n, _ => Sent(path, op))
  }

  /** A PUT is acknowledged exactly if its value is a string, and then a server forwards it exactly
      as often as the network model says: twice to a successor it knows, whatever the tail flag
      would allow. */
  lemma PutIsServed(s: State, k: CString, v: Block, second: bool)
    requires Represents(s.layout, s.store)
    ensures var r := Serve(s, PutRequest(k, v));
            && (r.reply.Done? <==> IsString(v))
            && (IsString(v) ==>
                 && Replies(r.reply.value, PutRequest(k, v), OP_PUT + 1, CT_NONE)
                 && r.state.store == Apply(s.store, Put(k, v))
                 && r.state.sent == s.sent + SentCopies(s.at.next, Put(k, v), N.Sends(s.at, Put(k, v), second)))
  {
    var n := N.Sends(s.at, Put(k, v), second);
    var x := Sent(s.at.next, Put(k, v));
    assert n == 0 || n == 1 || n == 2;
    assert s.sent + [x] + [x] == s.sent + [x, x];
    assert SentCopies(s.at.next, Put(k, v), n) == if n == 0 then [] else if n == 1 then [x] else [x, x];
    assert s.sent + [] == s.sent;
  }

  /** Of a PUT request only the entry counts. Without one, or with a value that is no string, the
      server dies before it has done anything. */
  lemma PutFaultsIff(s: State, c: Content)
    requires Represents(s.layout, s.store) && c.opcode == OP_PUT && c.cType == CT_ENTRY
    ensures var r := Serve(s, c);
            && (r.reply == Fault <==> c.entry == None || !IsString(c.entry.value.value))
            && (r.reply == Fault ==> r.state == s)
            && (r.reply.Done? ==>
                 && Replies(r.reply.value, c, OP_PUT + 1, CT_NONE)
                 && r.state == Serve(s, PutRequest(c.entry.value.key, c.entry.value.value)).state)
  {
  }

  /** Of a DEL request only the key counts, as long as there is no entry. */
  lemma DelFaultsIff(s: State, c: Content)
    requires Represents(s.layout, s.store) && c.opcode == OP_DEL && c.cType == CT_KEY && c.entry == None
    ensures var r := Serve(s, c);
            && (r.reply == Fault <==> c.key in s.store || s.layout[Slot(c.key, |s.layout|)] == [])
            && (r.reply.Done? ==> Refuses(r.reply.value, c))
            && r.state == Serve(s, DelRequest(c.key)).state
  {
    RemoveRepresents(s.layout, s.store, c.key);
  }

  /** A DEL that takes something away is applied and forwarded once, and then the server dies
      reading the entry the message does not have. */
  lemma EffectiveDelKills(s: State, k: CString)
    requires Represents(s.layout, s.store) && k in s.store
    ensures var r := Serve(s, DelRequest(k));
            && r.reply == Fault
            && r.state.store == Apply(s.store, Del(k))
            && r.state.sent == s.sent + SentCopies(s.at.next, Del(k), N.Sends(s.at, Del(k), false))
  {
    RemoveRepresents(s.layout, s.store, k);
    assert At(s.store, k) == Find(s.layout[Slot(k, |s.layout|)], k);
    assert s.sent + [] == s.sent;
    assert SentCopies(s.at.next, Del(k), 1) == [Sent(s.at.next, Del(k))];
  }

  /** A server survives a DEL exactly when the key is absent and its slot is not empty, that is,
      when the answer is an error; then nothing changes. */
  lemma DelIsSurvivedIff(s: State, k: CString)
    requires Represents(s.layout, s.store)
    ensures Serve(s, DelRequest(k)).reply.Done? <==> k !in s.store && s.layout[Slot(k, |s.layout|)] != []
    ensures Serve(s, DelRequest(k)).reply.Done? ==>
              Serve(s, DelRequest(k)) == Served(s, Done(Refused(DelRequest(k))))
  {
    RemoveRepresents(s.layout, s.store, k);
    if k in s.store {
      EffectiveDelKills(s, k);
    }
  }

  /** A DEL request that carries an entry as well succeeds, and then the second forward sends the
      successor a PUT of that entry. */
  lemma DelWithEntry(s: State, k: CString, e: Entry)
    requires Represents(s.layout, s.store) && k in s.store && !s.at.isTail && s.at.next != []
    ensures var c := DelRequest(k).(entry := Some(e));
            var r := Serve(s, c);
            && r.reply.Done? && Replies(r.reply.value, c, OP_DEL + 1, CT_NONE)
            && r.state.store == Apply(s.store, Del(k))
            && r.state.sent == s.sent + [Sent(s.at.next, Del(k)), Sent(s.at.next, Put(e.key, e.value))]
  {
    RemoveRepresents(s.layout, s.store, k);
    var x, y := Sent(s.at.next, Del(k)), Sent(s.at.next, Put(e.key, e.value));
    assert s.sent + [x] + [y] == s.sent + [x, y];
  }

  // ---- replies ----

  /** The request, with only these two fields changed. */
  predicate Replies(reply: Content, request: Content, opcode: int, cType: int) {
    reply == request.(opcode := opcode, cType := cType)
  }

  predicate Refuses(reply: Content, request: Content) {
    Replies(reply, request, OP_ERROR, CT_NONE)
  }

  predicate Shows(reply: Content, request: Content, v: Block) {
    Replies(reply, request.(value := v), OP_GET + 1, CT_VALUE)
  }

  /** The tail answers a GET with the value it stores, and without one, or off the tail, it is
      refused. */
  lemma GetIsServed(s: State, c: Content)
    requires Represents(s.layout, s.store) && c.opcode == OP_GET && (c.cType == CT_KEY || !s.at.isTail)
    ensures var r := Serve(s, c);
            && r.state == s && r.reply.Done?
            && if s.at.isTail && c.key in s.store then Shows(r.reply.value, c, s.store[c.key])
               else Refuses(r.reply.value, c)
  {
  }

  /** After a PUT the tail shows its value under its key and what it showed before under others. */
  lemma GetAfterPut(s: State, k: CString, v: Block, x: CString)
    requires Represents(s.layout, s.store) && s.at.isTail && IsString(v)
    ensures var s' := Serve(s, PutRequest(k, v)).state;
            && Represents(s'.layout, s'.store) && Serve(s', GetRequest(x)).reply.Done?
            && (x == k ==> Shows(Serve(s', GetRequest(x)).reply.value, GetRequest(x), v))
            && (x != k ==> Serve(s', GetRequest(x)).reply == Serve(s, GetRequest(x)).reply)
  {
    PutIsServed(s, k, v, true);
    ServeKeepsTable(s, PutRequest(k, v));
    GetIsServed(Serve(s, PutRequest(k, v)).state, GetRequest(x));
  }

  /** SIZE at the tail is the number of keys stored. */
  lemma SizeIsServed(s: State, c: Content)
    requires Represents(s.layout, s.store) && c.opcode == OP_SIZE
    ensures var r := Serve(s, c);
            && r.state == s && r.reply.Done?
            && if s.at.isTail then Replies(r.reply.value, c.(result := |s.store.Keys|), OP_SIZE + 1, CT_RESULT)
               else Refuses(r.reply.value, c)
  {
    assert |s.store| == |s.store.Keys|;
  }

  /** GETKEYS at the tail lists every key once, exactly if no slot is empty; otherwise it is
      refused. Elsewhere, or with another content type, the request is sent back as it came. */
  lemma GetKeysIff(s: State, c: Content)
    requires Represents(s.layout, s.store) && c.opcode == OP_GETKEYS
    ensures var r := Serve(s, c);
            && r.state == s && r.reply.Done?
            && (!s.at.isTail || c.cType != CT_NONE ==> r.reply.value == c)
            && (s.at.isTail && c.cType == CT_NONE && [] in s.layout ==> Refuses(r.reply.value, c))
            && (s.at.isTail && c.cType == CT_NONE && [] !in s.layout ==>
                 && Replies(r.reply.value, c.(keys := r.reply.value.keys), OP_GETKEYS + 1, CT_KEYS)
                 && Distinct(r.reply.value.keys) && (set k | k in r.reply.value.keys) == s.store.Keys
                 && |r.reply.value.keys| == |s.store|)
  {
    KeyListIsDomain(s.layout, s.store);
  }

  /** What kind of content an operation code goes with; SIZE and GETTABLE take any. */
  predicate Fits(c: Content) {
    && (c.opcode == OP_PUT ==> c.cType == CT_ENTRY)
    && (c.opcode in {OP_GET, OP_DEL} ==> c.cType == CT_KEY)
    && (c.opcode in {OP_GETKEYS, OP_STATS} ==> c.cType == CT_NONE)
  }

  /** Unknown operations are refused, STATS is answered by the tail only, and a request whose content
      does not fit is sent back as it came, unless it is refused for not being at the tail. */
  lemma OthersAreServed(s: State, c: Content)
    requires Represents(s.layout, s.store)
    ensures var r := Serve(s, c);
            var known := c.opcode in {OP_PUT, OP_GET, OP_DEL, OP_SIZE, OP_GETKEYS, OP_GETTABLE, OP_STATS};
            && (!known || (!s.at.isTail && c.opcode in {OP_STATS, OP_GETTABLE}) ==>
                 r.state == s && r.reply.Done? && Refuses(r.reply.value, c))
            && (s.at.isTail && c.opcode == OP_STATS && Fits(c) ==>
                 r.state == s && r.reply.Done? && Replies(r.reply.value, c, OP_STATS + 1, CT_STATS))
            && (!Fits(c) && (s.at.isTail || c.opcode !in {OP_GET, OP_STATS}) ==> r == Served(s, Done(c)))
  {
  }

  /** Off the tail the answer to a read does not depend on what the server stores, and is never a
      success. */
  lemma OnlyTheTailAnswers(s: State, t: State, c: Content)
    requires Represents(s.layout, s.store) && !s.at.isTail
    requires Represents(t.layout, t.store) && !t.at.isTail
    requires c.opcode in {OP_GET, OP_SIZE, OP_GETKEYS, OP_GETTABLE, OP_STATS}
    ensures Serve(s, c).reply == Serve(t, c).reply
    ensures Serve(s, c).reply.Done? && Serve(s, c).reply.value.opcode in {OP_GETKEYS, OP_ERROR}
    ensures Serve(s, c).state == s
  {
  }

  ghost predicate AnswerGetsAlike(s: State, t: State)
    requires Represents(s.layout, s.store) && Represents(t.layout, t.store)
  {
    forall k :: Serve(s, GetRequest(k)).reply == Serve(t, GetRequest(k)).reply
  }

  /** GETs tell two tails apart exactly if they store different things, and two servers off the tail
      never. */
  lemma GetsTellIff(s: State, t: State)
    requires Represents(s.layout, s.store) && Represents(t.layout, t.store) && s.at.isTail == t.at.isTail
    ensures AnswerGetsAlike(s, t) <==> !s.at.isTail || s.store == t.store
  {
    if s.at.isTail {
      if AnswerGetsAlike(s, t) {
        forall k ensures At(s.store, k) == At(t.store, k) {
          assert Serve(s, GetRequest(k)).reply == Serve(t, GetRequest(k)).reply;
        }
        StoresEqual(s.store, t.store);
      }
    } else {
      forall k ensures Serve(s, GetRequest(k)).reply == Serve(t, GetRequest(k)).reply {
        OnlyTheTailAnswers(s, t, GetRequest(k));
      }
    }
  }

  /** GETTABLE at the tail answers exactly when the table has entries and no empty slot, and the
      answer is a snapshot in the order of the key list; with entries but an empty slot the server dies. */
  lemma GetTableIff(s: State, c: Content)
    requires Represents(s.layout, s.store) && s.at.isTail && c.opcode == OP_GETTABLE
    ensures var r := Serve(s, c).reply;
            && (r == Fault <==> s.store != map[] && [] in s.layout)
            && (s.store == map[] ==> r == Done(Refused(c)))
            && (s.store != map[] && [] !in s.layout ==>
                 && r.Done? && Replies(r.value, c.(entries := r.value.entries), OP_GETTABLE + 1, CT_TABLE)
                 && SnapshotOf(r.value.entries, s.store) && Keys(r.value.entries) == KeysOf(s.layout))
  {
    KeysAreStored(s.layout, s.store);
    KeyListIsDomain(s.layout, s.store);
    assert s.store == map[] <==> |s.store| == 0;
    if s.store != map[] && [] !in s.layout {
      var es := TableEntries(s.layout, s.store);
      assert Keys(es) == KeysOf(s.layout);
      forall k | k in s.store ensures k in Keys(es) {
        assert k in (set x | x in KeysOf(s.layout));
      }
    }
  }

  /** Two tails with equal contents and slot counts give the same answer to every request. */
  lemma AgreeingTailsAnswerAlike(s: State, t: State, c: Content)
    requires Represents(s.layout, s.store) && Represents(t.layout, t.store)
    requires s.store == t.store && |s.layout| == |t.layout| && s.at.isTail == t.at.isTail
    ensures Serve(s, c).reply == Serve(t, c).reply
  {
    LayoutIsCanonical(s.layout, t.layout, s.store);
    assert Invoked(s, c).reply == Invoked(t, c).reply;
  }
}
