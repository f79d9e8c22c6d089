/** The wire form of a list of keys: the count as a 32-bit integer in network byte order, then
    each key with its terminating NUL. */
module KeyArrays {
  import opened CStrings
  import opened Lists

  // ---- htonl and ntohl ----

  const INT_LIMIT: int := 0x8000_0000

  /** The four bytes htonl leaves in memory for a 32-bit int. */
  function EncodeInt(n: int): (b: seq<byte>)
    requires -INT_LIMIT <= n < INT_LIMIT
    ensures |b| == 4
  {
    var u := if n < 0 then n + 0x1_0000_0000 else n;
    [u / 0x100_0000, u / 0x1_0000 % 0x100, u / 0x100 % 0x100, u % 0x100]
  }

  function Unsigned(b: seq<byte>): (u: int)
    requires |b| == 4
    ensures 0 <= u < 0x1_0000_0000
  {
    var b0: int, b1: int, b2: int, b3: int := b[0], b[1], b[2], b[3];
    b0 * 0x100_0000 + b1 * 0x1_0000 + b2 * 0x100 + b3
  }

  /** ntohl, read back into a signed int. */
  function DecodeInt(b: seq<byte>): (n: int)
    requires |b| == 4
    ensures -INT_LIMIT <= n < INT_LIMIT
  {
    var u := Unsigned(b);
    if u < INT_LIMIT then u else u - 0x1_0000_0000
  }

  lemma DecodeEncodeInt(n: int)
    requires -INT_LIMIT <= n < INT_LIMIT
    ensures DecodeInt(EncodeInt(n)) == n
  {
    var u := if n < 0 then n + 0x1_0000_0000 else n;
    assert u == u / 0x100 * 0x100 + u % 0x100;
    assert u / 0x100 == u / 0x1_0000 * 0x100 + u / 0x100 % 0x100;
    assert u / 0x1_0000 == u / 0x100_0000 * 0x100 + u / 0x1_0000 % 0x100;
  }

  lemma EncodeDecodeInt(b: seq<byte>)
    requires |b| == 4
    ensures EncodeInt(DecodeInt(b)) == b
  {
    Digits(b[0], b[1], b[2], b[3]);
  }

  lemma Digits(b0: int, b1: int, b2: int, b3: int)
    requires 0 <= b0 < 0x100 && 0 <= b1 < 0x100 && 0 <= b2 < 0x100 && 0 <= b3 < 0x100
    ensures var u := b0 * 0x100_0000 + b1 * 0x1_0000 + b2 * 0x100 + b3;
            u / 0x100_0000 == b0 && u / 0x1_0000 % 0x100 == b1 && u / 0x100 % 0x100 == b2 && u % 0x100 == b3
  {
    var u := b0 * 0x100_0000 + b1 * 0x1_0000 + b2 * 0x100 + b3;
    assert u / 0x100 == b0 * 0x1_0000 + b1 * 0x100 + b2;
    assert u / 0x1_0000 == b0 * 0x100 + b1;
  }

  /** What four bytes are worth, the most significant first. */
  lemma NetworkOrder(n: int)
    requires -INT_LIMIT <= n < INT_LIMIT
    ensures var b := EncodeInt(n);
            var b0: int, b1: int, b2: int, b3: int := b[0], b[1], b[2], b[3];
            b0 * 0x100_0000 + b1 * 0x1_0000 + b2 * 0x100 + b3 == if n < 0 then n + 0x1_0000_0000 else n
  {
    var u := if n < 0 then n + 0x1_0000_0000 else n;
    assert u == u / 0x100 * 0x100 + u % 0x100;
    assert u / 0x100 == u / 0x1_0000 * 0x100 + u / 0x100 % 0x100;
    assert u / 0x1_0000 == u / 0x100_0000 * 0x100 + u / 0x1_0000 % 0x100;
  }

  lemma ReadInNetworkOrder(b: seq<byte>)
    requires |b| == 4
    ensures var b0: int, b1: int, b2: int, b3: int := b[0], b[1], b[2], b[3];
            var u := b0 * 0x100_0000 + b1 * 0x1_0000 + b2 * 0x100 + b3;
            DecodeInt(b) == if b0 < 128 then u else u - 0x1_0000_0000
  {
    EncodeDecodeInt(b);
    NetworkOrder(DecodeInt(b));
  }

  // ---- the format ----

  function EncodeKeys(ks: seq<CString>): seq<byte> {
    if ks == [] then [] else ks[0] + [0] + EncodeKeys(ks[1..])
  }

  function Encode(ks: seq<CString>): seq<byte>
    requires |ks| < INT_LIMIT
  {
    EncodeInt(|ks|) + EncodeKeys(ks)
  }

  /** Sum of the key lengths, each with its NUL. */
  function TotalLength(ks: seq<CString>): nat {
    if ks == [] then 0 else |ks[0]| + 1 + TotalLength(ks[1..])
  }

  /** The first n strings of buf and what comes after them; None if buf ends before that. */
  function ParseKeys(n: nat, buf: seq<byte>): Option<(seq<CString>, seq<byte>)> {
    if n == 0 then Some(([], buf))
    else
      var len := StringLength(buf);
      StringLengthIsFirstNul(buf);
      if len == |buf| then None
      else match ParseKeys(n - 1, buf[len + 1..])
           case None => None
           case Some((ks, rest)) => Some(([buf[..len]] + ks, rest))
  }

  /** The keys in buf and what comes after them; None if the count is negative or the buffer
      ends too soon. */
  function Parse(buf: seq<byte>): Option<(seq<CString>, seq<byte>)> {
    if |buf| < 4 || DecodeInt(buf[..4]) < 0 then None else ParseKeys(DecodeInt(buf[..4]), buf[4..])
  }

  // ---- round trips ----

  lemma {:induction false} FirstNul(buf: seq<byte>, n: nat)
    requires n < |buf| && buf[n] == 0 && 0 !in buf[..n]
    ensures StringLength(buf) == n
  {
    if n > 0 {
      assert buf[0] == buf[..n][0];
      assert buf[1..][..n - 1] == buf[..n][1..];
      FirstNul(buf[1..], n - 1);
    }
  }

  lemma StringLengthOf(k: CString, rest: seq<byte>)
    ensures StringLength(k + [0] + rest) == |k|
  {
    assert (k + [0] + rest)[..|k|] == k;
    FirstNul(k + [0] + rest, |k|);
  }

  lemma ParseCons(k: CString, n: nat, rest: seq<byte>)
    requires ParseKeys(n, rest).Some?
    ensures var (ks, more) := ParseKeys(n, rest).value;
            ParseKeys(n + 1, k + [0] + rest) == Some(([k] + ks, more))
  {
    var buf := k + [0] + rest;
    StringLengthOf(k, rest);
    assert buf[..|k|] == k && buf[|k| + 1..] == rest;
  }

  lemma {:induction false} ParseEncodedKeys(ks: seq<CString>, trailing: seq<byte>)
    ensures ParseKeys(|ks|, EncodeKeys(ks) + trailing) == Some((ks, trailing))
  {
    if ks == [] {
      assert EncodeKeys(ks) + trailing == trailing;
    } else {
      ParseEncodedKeys(ks[1..], trailing);
      ParseCons(ks[0], |ks| - 1, EncodeKeys(ks[1..]) + trailing);
      Associate(ks[0] + [0], EncodeKeys(ks[1..]), trailing);
      assert ks == [ks[0]] + ks[1..];
    }
  }

  /** Decoding an encoding gives the keys back, and bytes after the last key do not matter. */
  lemma ParseEncode(ks: seq<CString>, trailing: seq<byte>)
    requires |ks| < INT_LIMIT
    ensures Parse(Encode(ks) + trailing) == Some((ks, trailing))
  {
    var buf := Encode(ks) + trailing;
    assert buf[..4] == EncodeInt(|ks|) && buf[4..] == EncodeKeys(ks) + trailing;
    DecodeEncodeInt(|ks|);
    ParseEncodedKeys(ks, trailing);
  }

  /** One key parsed. */
  lemma ParseStep(n: nat, buf: seq<byte>)
    requires n > 0 && ParseKeys(n, buf).Some?
    ensures var len := StringLength(buf);
            && len < |buf| && ParseKeys(n - 1, buf[len + 1..]).Some? && 0 !in buf[..len]
            && var (ks, rest) := ParseKeys(n - 1, buf[len + 1..]).value;
               ParseKeys(n, buf) == Some(([buf[..len]] + ks, rest))
  {
    StringLengthIsFirstNul(buf);
  }

  lemma EncodeCons(k: CString, ks: seq<CString>)
    ensures EncodeKeys([k] + ks) == k + [0] + EncodeKeys(ks)
  {
    assert ([k] + ks)[1..] == ks;
  }

  lemma SplitAtNul(buf: seq<byte>)
    requires StringLength(buf) < |buf|
    ensures var len := StringLength(buf); buf == buf[..len] + [0] + buf[len + 1..]
  {
    StringLengthIsFirstNul(buf);
    SplitAt(buf, StringLength(buf));
  }

  lemma SplitAt(s: seq<byte>, i: nat)
    requires i < |s|
    ensures s == s[..i] + [s[i]] + s[i + 1..]
  {
  }

  lemma {:induction false} EncodeParsedKeys(n: nat, buf: seq<byte>)
    requires ParseKeys(n, buf).Some?
    ensures var (ks, rest) := ParseKeys(n, buf).value;
            |ks| == n && EncodeKeys(ks) + rest == buf
  {
    if n == 0 {
      assert [] + buf == buf;
    } else {
      ParseStep(n, buf);
      SplitAtNul(buf);
      var len := StringLength(buf);
      var (ks, rest) := ParseKeys(n - 1, buf[len + 1..]).value;
      EncodeParsedKeys(n - 1, buf[len + 1..]);
      EncodeCons(buf[..len], ks);
      Associate(buf[..len] + [0], EncodeKeys(ks), rest);
    }
  }

  lemma Associate(a: seq<byte>, b: seq<byte>, c: seq<byte>)
    ensures (a + b) + c == a + (b + c)
  {
  }

  /** Every well-formed buffer re-encodes to itself, up to bytes after the last key. */
  lemma EncodeParse(buf: seq<byte>)
    requires Parse(buf).Some?
    ensures var (ks, rest) := Parse(buf).value;
            |ks| < INT_LIMIT && Encode(ks) + rest == buf
  {
    EncodeParsedKeys(DecodeInt(buf[..4]), buf[4..]);
    EncodeDecodeInt(buf[..4]);
    var (ks, rest) := Parse(buf).value;
    Associate(EncodeInt(|ks|), EncodeKeys(ks), rest);
  }

  lemma {:induction false} EncodedSize(ks: seq<CString>)
    ensures |EncodeKeys(ks)| == TotalLength(ks)
  {
    if ks != [] {
      EncodedSize(ks[1..]);
    }
  }

  lemma {:induction false} EncodeKeysSnoc(ks: seq<CString>, k: CString)
    ensures EncodeKeys(ks + [k]) == EncodeKeys(ks) + k + [0]
  {
    if ks == [] {
      assert ks + [k] == [k] && [k][1..] == [];
      assert EncodeKeys([k]) == k + [0] + [];
    } else {
      EncodeKeysSnoc(ks[1..], k);
      assert (ks + [k])[1..] == ks[1..] + [k];
    }
  }

  lemma {:induction false} EncodeKeysPrefix(ks: seq<CString>, i: nat)
    requires i <= |ks|
    ensures |EncodeKeys(ks[..i])| <= |EncodeKeys(ks)|
    decreases |ks| - i
  {
    if i < |ks| {
      assert ks[..i + 1] == ks[..i] + [ks[i]];
      EncodeKeysSnoc(ks[..i], ks[i]);
      EncodeKeysPrefix(ks, i + 1);
    } else {
      assert ks[..i] == ks;
    }
  }

  lemma {:induction false} EncodeKeysConcat(a: seq<CString>, b: seq<CString>)
    ensures EncodeKeys(a + b) == EncodeKeys(a) + EncodeKeys(b)
  {
    if a == [] {
      assert a + b == b;
    } else {
      assert (a + b)[1..] == a[1..] + b;
      EncodeKeysConcat(a[1..], b);
      Associate(a[0] + [0], EncodeKeys(a[1..]), EncodeKeys(b));
    }
  }

  lemma Within(a: seq<byte>, b: seq<byte>, c: seq<byte>)
    ensures (a + b + c)[|a|..|a| + |b|] == b
  {
  }

  lemma EncodeAround(before: seq<CString>, key: CString, after: seq<CString>)
    ensures EncodeKeys(before + ([key] + after)) == EncodeKeys(before) + (key + [0]) + EncodeKeys(after)
  {
    EncodeKeysConcat(before, [key] + after);
    EncodeCons(key, after);
    Associate(EncodeKeys(before), key + [0], EncodeKeys(after));
  }

  lemma SplitKeys(ks: seq<CString>, i: nat)
    requires i < |ks|
    ensures ks == ks[..i] + ([ks[i]] + ks[i + 1..])
  {
  }

  /** The number of keys is in the first four bytes, the most significant first. */
  lemma EncodedCount(ks: seq<CString>)
    requires |ks| < INT_LIMIT
    ensures var e := Encode(ks);
            var e0: int, e1: int, e2: int, e3: int := e[0], e[1], e[2], e[3];
            e0 * 0x100_0000 + e1 * 0x1_0000 + e2 * 0x100 + e3 == |ks| && e[4..] == EncodeKeys(ks)
  {
    NetworkOrder(|ks|);
  }

  /** Each key, with its NUL, is behind the keys before it. */
  lemma EncodedAt(ks: seq<CString>, i: nat)
    requires i < |ks|
    ensures var e, p := EncodeKeys(ks), TotalLength(ks[..i]);
            && |e| == TotalLength(ks) && p + |ks[i]| + 1 <= |e|
            && e[p..p + |ks[i]| + 1] == ks[i] + [0]
  {
    var before, key, after := ks[..i], ks[i], ks[i + 1..];
    EncodedSize(ks);
    EncodedSize(before);
    SplitKeys(ks, i);
    EncodeAround(before, key, after);
    Within(EncodeKeys(before), key + [0], EncodeKeys(after));
  }

  // ---- keyArray_to_buffer ----

  /** keyArray_to_buffer: -1 for a missing array; the caller's array must end in NULL, and the
      int counters must hold the size. */
  method KeyArrayToBuffer(keys: array?<Option<CString>>, ghost ks: seq<CString>) returns (size: int, buf: array?<byte>)
    requires keys != null ==> |ks| < keys.Length && keys[..|ks| + 1] == Cells(ks)
    requires |ks| < INT_LIMIT && 4 + TotalLength(ks) < INT_LIMIT
    ensures keys == null ==> size == -1 && buf == null
    ensures keys != null ==> buf != null && fresh(buf) && buf[..] == Encode(ks)
    ensures keys != null ==> size == buf.Length == 4 + TotalLength(ks)
  {
    if keys == null {
      return -1, null;
    }
    var nkeys;
    nkeys, size := CountKeys(keys, ks);
    EncodedSize(ks);
    size := size + 4;
    buf := new byte[size];
    var count := EncodeInt(nkeys);
    forall j | 0 <= j < 4 {
      buf[j] := count[j];
    }
    CopyKeys(buf, keys, nkeys, ks);
    assert buf[..4] == count;
  }

  /** The loop that counts keys and bytes. */
  method CountKeys(keys: array<Option<CString>>, ghost ks: seq<CString>) returns (nkeys: nat, size: nat)
    requires |ks| < keys.Length && keys[..|ks| + 1] == Cells(ks)
    ensures nkeys == |ks| && size == |EncodeKeys(ks)|
  {
    assert forall j :: 0 <= j <= |ks| ==> keys[..|ks| + 1][j] == keys[j];
    size, nkeys := 0, 0;
    assert ks[..0] == [];
    while keys[nkeys] != None
      invariant 0 <= nkeys <= |ks| && size == |EncodeKeys(ks[..nkeys])|
      decreases |ks| - nkeys
    {
      assert ks[..nkeys + 1] == ks[..nkeys] + [ks[nkeys]];
      EncodeKeysSnoc(ks[..nkeys], ks[nkeys]);
      size := size + |keys[nkeys].value| + 1;
      nkeys := nkeys + 1;
    }
    assert ks[..nkeys] == ks;
  }

  /** The loop that copies the keys behind the count. */
  method CopyKeys(buf: array<byte>, keys: array<Option<CString>>, nkeys: nat, ghost ks: seq<CString>)
    requires nkeys == |ks| < keys.Length && keys[..|ks| + 1] == Cells(ks)
    requires buf.Length == 4 + |EncodeKeys(ks)|
    modifies buf
    ensures buf[..] == old(buf[..4]) + EncodeKeys(ks)
  {
    ghost var count := buf[..4];
    var p := 4;
    var i := 0;
    assert ks[..0] == [] && buf[..p] == count + EncodeKeys(ks[..0]);
    while i < nkeys
      invariant 0 <= i <= nkeys && p == 4 + |EncodeKeys(ks[..i])| <= buf.Length
      invariant buf[..p] == count + EncodeKeys(ks[..i])
    {
      EncodeKeysSnoc(ks[..i], ks[i]);
      assert ks[..i + 1] == ks[..i] + [ks[i]];
      EncodeKeysPrefix(ks, i + 1);
      assert keys[i] == keys[..|ks| + 1][i];
      p := CopyString(buf, p, keys[i].value);
      i := i + 1;
    }
    assert ks[..i] == ks && buf[..p] == buf[..];
  }

  /** memcpy of a string with its NUL. */
  method CopyString(buf: array<byte>, p: nat, key: CString) returns (q: nat)
    requires p + |key| + 1 <= buf.Length
    modifies buf
    ensures q == p + |key| + 1
    ensures buf[..q] == old(buf[..p]) + key + [0]
  {
    forall j | 0 <= j < |key| {
      buf[p + j] := key[j];
    }
    buf[p + |key|] := 0;
    q := p + |key| + 1;
  }

  // ---- buffer_to_keyArray ----

  /** strlen from a position of the buffer; None if it reads past the end. */
  method StrLen(buf: array<byte>, from: nat) returns (n: Option<nat>)
    requires from <= buf.Length
    ensures var s := buf[from..]; n == if StringLength(s) < |s| then Some(StringLength(s)) else None
  {
    ghost var s := buf[from..];
    StringLengthIsFirstNul(s);
    var i := 0;
    while from + i < buf.Length && buf[from + i] != 0
      invariant i <= StringLength(s) && 0 !in s[..i]
      decreases |s| - i
    {
      assert s[i] == buf[from + i] && s[..i + 1] == s[..i] + [s[i]];
      i := i + 1;
    }
    if from + i == buf.Length {
      return None;
    }
    assert s[i] == buf[from + i];
    FirstNul(s, i);
    return Some(i);
  }

  /** The n cells buffer_to_keyArray leaves: only the keys are written, the rest keeps what the
      allocated memory held. There is room for a terminator, but it is not among the keys. */
  function Filled(ks: seq<CString>, memory: Option<CString>, n: nat): (cells: seq<Option<CString>>) {
    seq(n, i requires 0 <= i < n => if i < |ks| then Some(ks[i]) else memory)
  }

  function Decoded(ks: seq<CString>, memory: Option<CString>): (cells: seq<Option<CString>>) {
    Filled(ks, memory, |ks| + 1)
  }

  lemma WriteOne(ks: seq<CString>, memory: Option<CString>, n: nat, k: CString)
    requires |ks| < n
    ensures Filled(ks, memory, n)[|ks| := Some(k)] == Filled(ks + [k], memory, n)
  {
  }

  /** What has been parsed before what is still to be parsed. */
  function Continued(found: seq<CString>, rest: Option<(seq<CString>, seq<byte>)>): Option<(seq<CString>, seq<byte>)> {
    match rest
    case None => None
    case Some((ks, more)) => Some((found + ks, more))
  }

  /** These keys have been found, n are still to come from position p, and all is the outcome. */
  ghost predicate Scanned(bytes: seq<byte>, p: nat, n: nat, found: seq<CString>,
                          all: Option<(seq<CString>, seq<byte>)>)
  {
    p <= |bytes| && Continued(found, ParseKeys(n, bytes[p..])) == all
  }

  lemma ScanOne(bytes: seq<byte>, p: nat, n: nat, found: seq<CString>, all: Option<(seq<CString>, seq<byte>)>,
                key: Option<CString>, q: nat)
    requires Scanned(bytes, p, n, found, all) && n > 0 && ScansTo(bytes, p, key, q)
    ensures key == None ==> all == None
    ensures key.Some? ==> Scanned(bytes, q, n - 1, found + [key.value], all)
  {
    var buf := bytes[p..];
    var len := StringLength(buf);
    StringLengthIsFirstNul(buf);
    if len < |buf| && ParseKeys(n - 1, buf[len + 1..]).Some? {
      var (ks, more) := ParseKeys(n - 1, buf[len + 1..]).value;
      assert found + ([buf[..len]] + ks) == (found + [buf[..len]]) + ks;
    }
  }

  /** The string at position p, and where the next one starts. */
  ghost predicate ScansTo(bytes: seq<byte>, p: nat, key: Option<CString>, q: nat)
    requires p <= |bytes|
  {
    var s := bytes[p..];
    var len := StringLength(s);
    if len < |s| then key.Some? && key.value == s[..len] && q <= |bytes| && bytes[q..] == s[len + 1..]
    else key == None
  }

  /** buffer_to_keyArray of any bytes. The code is not told how many there are: a count or a key
      that is not all there is read past the end, and n + 1 must not overflow. A count below -1
      asks for more memory than there is. */
  method BufferToKeyArray(buf: array<byte>, memory: Option<CString>) returns (outcome: Outcome<Option<KeyArray>>)
    ensures buf.Length < 4 ==> outcome == Fault
    ensures buf.Length >= 4 ==>
              var n := DecodeInt(buf[..4]);
              && (outcome == Fault <==> n == INT_LIMIT - 1 || (n >= 0 && Parse(buf[..]) == None))
              && (outcome == Done(None) <==> n < -1)
              && (outcome.Done? && outcome.value.Some? ==>
                   && fresh(outcome.value.value)
                   && outcome.value.value[..] == if n == -1 then [] else Decoded(Parse(buf[..]).value.0, memory))
  {
    if buf.Length < 4 {
      return Fault;
    }
    var nkeys := DecodeInt(buf[..4]);
    assert buf[..][..4] == buf[..4];
    if nkeys == INT_LIMIT - 1 {
      return Fault;
    }
    if nkeys + 1 < 0 {
      return Done(None);
    }
    var keys := new Option<CString>[nkeys + 1](_ => memory);
    if nkeys < 0 {
      return Done(Some(keys));
    }
    assert keys[..] == Filled([], memory, nkeys + 1);
    assert buf[..][4..] == buf[4..];
    ParsedCount(nkeys, buf[4..]);
    var ok := TakeKeys(buf, keys, nkeys, memory);
    if !ok {
      return Fault;
    }
    return Done(Some(keys));
  }

  lemma {:induction false} ParsedCount(n: nat, buf: seq<byte>)
    ensures ParseKeys(n, buf).Some? ==> |ParseKeys(n, buf).value.0| == n
  {
    if n > 0 {
      StringLengthIsFirstNul(buf);
      var len := StringLength(buf);
      if len < |buf| {
        ParsedCount(n - 1, buf[len + 1..]);
      }
    }
  }

  /** The loop has taken these keys and stands at position p. */
  ghost predicate Taking(bytes: seq<byte>, cells: seq<Option<CString>>, p: nat, found: seq<CString>, n: nat,
                         memory: Option<CString>, all: Option<(seq<CString>, seq<byte>)>)
  {
    |found| <= n && Scanned(bytes, p, n - |found|, found, all) && cells == Filled(found, memory, n + 1)
  }

  lemma TakeOne(bytes: seq<byte>, cells: seq<Option<CString>>, p: nat, found: seq<CString>, n: nat,
                memory: Option<CString>, all: Option<(seq<CString>, seq<byte>)>, key: Option<CString>, q: nat)
    requires Taking(bytes, cells, p, found, n, memory, all) && |found| < n && ScansTo(bytes, p, key, q)
    ensures |cells| == n + 1
    ensures key == None ==> all == None
    ensures key.Some? ==> Taking(bytes, cells[|found| := key], q, found + [key.value], n, memory, all)
  {
    ScanOne(bytes, p, n - |found|, found, all, key, q);
    if key.Some? {
      WriteOne(found, memory, n + 1, key.value);
    }
  }

  /** The loop of buffer_to_keyArray; false if it reads past the end. */
  method TakeKeys(buf: array<byte>, keys: KeyArray, nkeys: nat, ghost memory: Option<CString>) returns (ok: bool)
    requires buf.Length >= 4 && keys.Length == nkeys + 1 && keys[..] == Filled([], memory, nkeys + 1)
    modifies keys
    ensures ok <==> ParseKeys(nkeys, old(buf[..])[4..]).Some?
    ensures ok ==> keys[..] == Filled(ParseKeys(nkeys, old(buf[..])[4..]).value.0, memory, nkeys + 1)
  {
    ghost var bytes, found: seq<CString> := buf[..], [];
    ghost var all := ParseKeys(nkeys, bytes[4..]);
    assert all.Some? ==> [] + all.value.0 == all.value.0;
    var p: nat := 4;
    var i := 0;
    while i < nkeys
      invariant 0 <= i <= nkeys && |found| == i && buf[..] == bytes
      invariant Taking(bytes, keys[..], p, found, nkeys, memory, all)
    {
      var key, q := TakeString(buf, p, bytes);
      TakeOne(bytes, keys[..], p, found, nkeys, memory, all, key, q);
      if key == None {
        return false;
      }
      found, p := found + [key.value], q;
      keys[i] := key;
      i := i + 1;
    }
    NothingLeft(bytes, p, found, all);
    return true;
  }

  lemma NothingLeft(bytes: seq<byte>, p: nat, found: seq<CString>, all: Option<(seq<CString>, seq<byte>)>)
    requires Scanned(bytes, p, 0, found, all)
    ensures all.Some? && all.value.0 == found
  {
    assert found + [] == found;
  }

  /** strlen and memcpy of one key; None if there is no NUL to stop at. */
  method TakeString(buf: array<byte>, p: nat, ghost bytes: seq<byte>) returns (key: Option<CString>, q: nat)
    requires buf[..] == bytes && p <= |bytes|
    ensures ScansTo(bytes, p, key, q)
  {
    StringLengthIsFirstNul(bytes[p..]);
    var len := StrLen(buf, p);
    assert bytes[p..] == buf[p..];
    if len == None {
      return None, p;
    }
    q := p + len.value;
    assert bytes[p..][..len.value] == buf[p..q] && bytes[p..][len.value + 1..] == bytes[q + 1..];
    return Some(buf[p..q]), q + 1;
  }

  /** The header promises a NULL-terminated array, as keyArray_to_buffer needs it. It is one if the
      memory happened to hold NULL; if not there is no terminator anywhere in it. */
  lemma DecodedIsTerminatedIff(ks: seq<CString>, memory: Option<CString>)
    ensures Decoded(ks, memory) == Cells(ks) <==> memory == None
    ensures None in Decoded(ks, memory) <==> memory == None
    ensures memory == None ==> forall i :: 0 <= i < |ks| ==> Decoded(ks, memory)[i] != None
  {
    var cells := Decoded(ks, memory);
    assert cells[|ks|] == memory && Cells(ks)[|ks|] == None;
    assert |Cells(ks)| == |cells|;
    assert forall i :: 0 <= i < |ks| ==> cells[i] == Some(ks[i]) == Cells(ks)[i];
    if memory == None {
      assert cells == Cells(ks);
    }
  }

  /** What was encoded comes back as the same keys, and with a terminator only by luck. */
  lemma DecodeOfEncode(ks: seq<CString>, memory: Option<CString>)
    requires |ks| < INT_LIMIT
    ensures Parse(Encode(ks)).Some?
    ensures Decoded(Parse(Encode(ks)).value.0, memory) == Cells(ks) <==> memory == None
  {
    assert Encode(ks) + [] == Encode(ks);
    ParseEncode(ks, []);
    DecodedIsTerminatedIff(ks, memory);
  }
}
