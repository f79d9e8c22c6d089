/** Byte strings as the C library sees them, and the order strcmp puts on them
    (section 7.24.4 of ISO/IEC 9899:2011). Every key and every ZooKeeper node name is
    compared with this order. */
module CStrings {

  datatype Option<+T> = None | Some(value: T)

  type byte = x: int | 0 <= x < 256

  /** The bytes before the terminating NUL. */
  type CString = s: seq<byte> | 0 !in s

  /** strlen: the position of the first NUL; all of buf if there is none. */
  function StringLength(buf: seq<byte>): (n: nat)
    ensures n <= |buf|
  {
    if buf == [] || buf[0] == 0 then 0 else 1 + StringLength(buf[1..])
  }

  lemma {:induction false} StringLengthIsFirstNul(buf: seq<byte>)
    ensures var n := StringLength(buf); 0 !in buf[..n] && (n < |buf| ==> buf[n] == 0)
  {
    if buf != [] && buf[0] != 0 {
      StringLengthIsFirstNul(buf[1..]);
      var n := StringLength(buf[1..]);
      assert buf[..n + 1] == [buf[0]] + buf[1..][..n];
    }
  }

  /** strcmp. The standard fixes only the sign of the result; -1, 0 and 1 stand for it. */
  function Strcmp(s: CString, t: CString): int {
    if s == [] then if t == [] then 0 else -1
    else if t == [] then 1
    else if s[0] < t[0] then -1
    else if s[0] > t[0] then 1
    else Strcmp(s[1..], t[1..])
  }

  predicate Less(s: CString, t: CString) {
    Strcmp(s, t) < 0
  }

  /** The byte strcmp reads at position i: the terminator counts as 0. */
  function ByteAt(s: CString, i: nat): int
    requires i <= |s|
  {
    if i < |s| then s[i] else 0
  }

  /** The order without recursion: the first position where the strings, terminators
      included, differ decides. */
  ghost predicate FirstDifferenceIsSmaller(s: CString, t: CString) {
    exists i: nat :: i <= |s| && i <= |t| && s[..i] == t[..i] && ByteAt(s, i) < ByteAt(t, i)
  }

  lemma FirstDifferenceUnfolds(s: CString, t: CString)
    requires FirstDifferenceIsSmaller(s, t)
    ensures ByteAt(s, 0) < ByteAt(t, 0)
         || (s != [] && t != [] && s[0] == t[0] && FirstDifferenceIsSmaller(s[1..], t[1..]))
  {
    var i: nat :| i <= |s| && i <= |t| && s[..i] == t[..i] && ByteAt(s, i) < ByteAt(t, i);
    if i > 0 {
      assert s[0] == s[..i][0] == t[..i][0] == t[0];
      assert s[1..][..i - 1] == s[..i][1..] == t[..i][1..] == t[1..][..i - 1];
      assert ByteAt(s[1..], i - 1) < ByteAt(t[1..], i - 1);
    }
  }

  lemma {:induction false} LessIsFirstDifference(s: CString, t: CString)
    ensures Less(s, t) <==> FirstDifferenceIsSmaller(s, t)
  {
    if FirstDifferenceIsSmaller(s, t) {
      FirstDifferenceUnfolds(s, t);
    }
    if ByteAt(s, 0) < ByteAt(t, 0) {
      assert s[..0] == t[..0];
    } else if s != [] && t != [] && s[0] == t[0] {
      var s', t' := s[1..], t[1..];
      LessIsFirstDifference(s', t');
      if FirstDifferenceIsSmaller(s', t') {
        var i: nat :| i <= |s'| && i <= |t'| && s'[..i] == t'[..i] && ByteAt(s', i) < ByteAt(t', i);
        assert s[..i + 1] == [s[0]] + s'[..i] == [t[0]] + t'[..i] == t[..i + 1];
        assert ByteAt(s, i + 1) < ByteAt(t, i + 1);
      }
    }
  }

  lemma {:induction false} StrcmpZero(s: CString, t: CString)
    ensures Strcmp(s, t) == 0 <==> s == t
  {
    if s != [] && t != [] && s[0] == t[0] {
      StrcmpZero(s[1..], t[1..]);
      assert s == [s[0]] + s[1..] && t == [t[0]] + t[1..];
    }
  }

  /** The test strcmp(s, t) == 0. */
  predicate Same(s: CString, t: CString)
    ensures Same(s, t) <==> s == t
  {
    StrcmpZero(s, t);
    Strcmp(s, t) == 0
  }

  lemma {:induction false} StrcmpSwap(s: CString, t: CString)
    ensures Strcmp(t, s) == -Strcmp(s, t)
  {
    if s != [] && t != [] && s[0] == t[0] {
      StrcmpSwap(s[1..], t[1..]);
    }
  }

  lemma {:induction false} LessTransitive(s: CString, t: CString, u: CString)
    requires Less(s, t) && Less(t, u)
    ensures Less(s, u)
  {
    if s != [] && t != [] && u != [] && s[0] == t[0] == u[0] {
      LessTransitive(s[1..], t[1..], u[1..]);
    }
  }

  /** strcmp gives a strict total order: exactly one of less, equal, greater holds. */
  lemma LessIsTotal(s: CString, t: CString)
    ensures !Less(s, s)
    ensures Less(s, t) ==> !Less(t, s) && s != t
    ensures Less(s, t) || s == t || Less(t, s)
  {
    StrcmpZero(s, s);
    StrcmpZero(s, t);
    StrcmpSwap(s, t);
  }

  lemma {:induction false} StrcmpPrefix(p: CString, s: CString, t: CString)
    ensures Strcmp(p + s, p + t) == Strcmp(s, t)
  {
    if p == [] {
      assert p + s == s && p + t == t;
    } else {
      StrcmpPrefix(p[1..], s, t);
      assert (p + s)[1..] == p[1..] + s && (p + t)[1..] == p[1..] + t;
    }
  }

  function Sign(n: int): int {
    if n < 0 then -1 else if n == 0 then 0 else 1
  }

  lemma {:induction false} StrcmpSnoc(s: CString, t: CString, x: byte, y: byte)
    requires |s| == |t| && x != 0 && y != 0
    ensures Strcmp(s + [x], t + [y]) == if s == t then Sign(x - y) else Strcmp(s, t)
  {
    if s == [] {
      assert s + [x] == [x] && t + [y] == [y];
      StrcmpZero([], []);
    } else {
      StrcmpSnoc(s[1..], t[1..], x, y);
      assert (s + [x])[1..] == s[1..] + [x] && (t + [y])[1..] == t[1..] + [y];
      assert s == [s[0]] + s[1..] && t == [t[0]] + t[1..];
    }
  }

  // ---- ZooKeeper node names ----

  /** n in decimal, zero-padded to the given width. */
  function Decimal(n: nat, width: nat): (s: CString)
    ensures |s| == width
    ensures forall i :: 0 <= i < |s| ==> 48 <= s[i] < 58
  {
    if width == 0 then [] else Decimal(n / 10, width - 1) + [48 + n % 10]
  }

  function PowerOfTen(w: nat): nat {
    if w == 0 then 1 else 10 * PowerOfTen(w - 1)
  }

  lemma {:induction false} DecimalOrder(a: nat, b: nat, w: nat)
    requires a < PowerOfTen(w) && b < PowerOfTen(w)
    ensures Strcmp(Decimal(a, w), Decimal(b, w)) == Sign(a - b)
  {
    if w > 0 {
      DecimalOrder(a / 10, b / 10, w - 1);
      StrcmpZero(Decimal(a / 10, w - 1), Decimal(b / 10, w - 1));
      StrcmpSnoc(Decimal(a / 10, w - 1), Decimal(b / 10, w - 1), 48 + a % 10, 48 + b % 10);
    }
  }

  /** "/chain/" */
  const CHAIN_PREFIX: CString := [47, 99, 104, 97, 105, 110, 47]

  /** "server_" */
  const NODE_PREFIX: CString := [115, 101, 114, 118, 101, 114, 95]

  const COUNTER_DIGITS: nat := 10

  /** The number of counter values that fit the digits. */
  const MAX_NODES: nat := 10_000_000_000

  /** The child name ZooKeeper makes for the counter value i. */
  function NodeName(i: nat): CString {
    NODE_PREFIX + Decimal(i, COUNTER_DIGITS)
  }

  /** On sequential node names the strcmp order is the order of creation. */
  lemma NodeNameOrder(a: nat, b: nat)
    requires a < MAX_NODES && b < MAX_NODES
    ensures Less(NodeName(a), NodeName(b)) <==> a < b
    ensures NodeName(a) == NodeName(b) <==> a == b
  {
    assert PowerOfTen(COUNTER_DIGITS) == MAX_NODES by {
      assert PowerOfTen(4) == 10_000;
      assert PowerOfTen(7) == 10_000_000;
    }
    StrcmpPrefix(NODE_PREFIX, Decimal(a, COUNTER_DIGITS), Decimal(b, COUNTER_DIGITS));
    DecimalOrder(a, b, COUNTER_DIGITS);
    StrcmpZero(NodeName(a), NodeName(b));
  }

  /** Child names hold no slash. */
  lemma NodeNameHasNoSlash(i: nat)
    ensures 47 !in NodeName(i)
  {
    assert forall j :: 0 <= j < |NodeName(i)| ==> NodeName(i)[j] != 47;
  }
}
