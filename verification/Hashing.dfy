/** The shift-and-add hash that picks a key's slot, with the wrap-around of a 64-bit
    unsigned long and the sign extension of a signed char. */
module Hashing {
  import opened CStrings

  const WORD: int := 0x1_0000_0000_0000_0000

  /** A char read into an int, char being signed. */
  function SignedChar(b: byte): int {
    if b < 128 then b else b - 256
  }

  function Power33(n: nat): nat {
    if n == 0 then 1 else 33 * Power33(n - 1)
  }

  /** Sum of c_i * 33^(n-1-i) over the characters of s, without wrap-around. */
  function Polynomial(s: CString): int {
    if s == [] then 0 else SignedChar(s[0]) * Power33(|s| - 1) + Polynomial(s[1..])
  }

  /** The hash before wrap-around, as a closed formula. */
  function Unwrapped(s: CString): int {
    5381 * Power33(|s|) + Polynomial(s)
  }

  function HashValue(s: CString): nat {
    Unwrapped(s) % WORD
  }

  /** The slot of a key in a table of n slots. */
  function Slot(s: CString, n: nat): (i: nat)
    requires n > 0
    ensures i < n
  {
    HashValue(s) % n
  }

  // ---- the polynomial, one character and one string at a time ----

  lemma Scale(a: int, b: int)
    ensures a * (33 * b) == 33 * (a * b)
  {
  }

  lemma {:induction false} PolynomialSnoc(s: CString, c: byte)
    requires c != 0
    ensures Polynomial(s + [c]) == 33 * Polynomial(s) + SignedChar(c)
  {
    if s == [] {
      assert s + [c] == [c] && [c][1..] == [];
      assert Power33(0) == 1;
    } else {
      assert (s + [c])[1..] == s[1..] + [c];
      PolynomialSnoc(s[1..], c);
      Scale(SignedChar(s[0]), Power33(|s| - 1));
    }
  }

  lemma UnwrappedSnoc(s: CString, c: byte)
    requires c != 0
    ensures Unwrapped(s + [c]) == 33 * Unwrapped(s) + SignedChar(c)
  {
    PolynomialSnoc(s, c);
  }

  lemma {:induction false} UnwrappedConcat(s: CString, t: CString)
    ensures Unwrapped(s + t) == Unwrapped(s) * Power33(|t|) + Polynomial(t)
  {
    if t == [] {
      assert s + t == s;
    } else {
      var t', c := t[..|t| - 1], t[|t| - 1];
      assert s + t == (s + t') + [c] && t == t' + [c];
      UnwrappedConcat(s, t');
      UnwrappedSnoc(s + t', c);
      PolynomialSnoc(t', c);
      Scale(Unwrapped(s), Power33(|t'|));
    }
  }

  // ---- wrap-around ----

  lemma QuotientUnique(y: int, q: int, r: int)
    requires 0 <= r < WORD && y == q * WORD + r
    ensures y % WORD == r
  {
    var d := y / WORD - q;
    assert d * WORD == r - y % WORD;
  }

  lemma ModuloShift(x: int, k: int)
    ensures (x + k * WORD) % WORD == x % WORD
  {
    var y := x + k * WORD;
    assert y == (x / WORD + k) * WORD + x % WORD;
    QuotientUnique(y, x / WORD + k, x % WORD);
  }

  /** Wrapping a factor early does not change a wrapped result. */
  lemma WrapEarly(a: int, m: int, b: int)
    ensures (a % WORD * m + b) % WORD == (a * m + b) % WORD
  {
    var q := a / WORD;
    assert a * m == a % WORD * m + (q * m) * WORD by {
      assert a == a % WORD + q * WORD;
    }
    ModuloShift(a % WORD * m + b, q * m);
  }

  /** Appending a string to a key continues its hash: h(s+t) = h(s)*33^|t| + p(t). */
  lemma HashConcat(s: CString, t: CString)
    ensures HashValue(s + t) == (HashValue(s) * Power33(|t|) + Polynomial(t)) % WORD
  {
    UnwrappedConcat(s, t);
    WrapEarly(Unwrapped(s), Power33(|t|), Polynomial(t));
  }

  /** The hash of no character, and of one more. */
  lemma HashSnoc(s: CString, c: byte)
    requires c != 0
    ensures HashValue([]) == 5381
    ensures HashValue(s + [c]) == (33 * HashValue(s) + if c < 128 then c as int else c as int - 256) % WORD
  {
    UnwrappedSnoc(s, c);
    WrapEarly(Unwrapped(s), 33, SignedChar(c));
    assert Power33(0) == 1;
  }

  lemma ShiftAndAdd(u: int, c: int)
    ensures ((u % WORD * 32 % WORD + u % WORD) % WORD + c) % WORD == (33 * u + c) % WORD
  {
    var h := u % WORD;
    WrapEarly(h * 32 + h, 1, c);
    WrapEarly(h * 32, 1, h);
    WrapEarly(u, 33, c);
  }

  /** From a start value, h = ((h << 5) + h) + c for each character, in words of 64 bits. */
  function ShiftedAndAdded(h: nat, s: CString): nat
    decreases |s|
  {
    if s == [] then h
    else
      var c: int := s[0];
      ShiftedAndAdded((h * 32 + h + if c < 128 then c else c - 256) % 0x1_0000_0000_0000_0000, s[1..])
  }

  lemma {:induction false} Continue(s: CString, t: CString)
    ensures HashValue(s + t) == ShiftedAndAdded(HashValue(s), t)
    decreases |t|
  {
    if t == [] {
      assert s + t == s;
    } else {
      assert s + t == (s + [t[0]]) + t[1..];
      HashSnoc(s, t[0]);
      Continue(s + [t[0]], t[1..]);
    }
  }

  /** The slot is what shifting and adding from 5381, character by character, leaves modulo the
      number of slots. */
  lemma SlotIsShiftedAndAdded(s: CString, n: nat)
    requires n > 0
    ensures Slot(s, n) == ShiftedAndAdded(5381, s) % n
  {
    Continue([], s);
    HashSnoc([], 1);
    assert [] + s == s;
  }

  /** hash: -1 for a size that is not positive, a valid slot otherwise. */
  method Hash(key: CString, size: int) returns (slot: int)
    ensures size <= 0 ==> slot == -1
    ensures size > 0 ==> slot == Slot(key, size) && 0 <= slot < size
  {
    if size <= 0 {
      return -1;
    }
    var hash := 5381;
    var i := 0;
    assert key[..0] == [];
    while i < |key|
      invariant 0 <= i <= |key|
      invariant hash == HashValue(key[..i])
    {
      assert key[..i + 1] == key[..i] + [key[i]];
      UnwrappedSnoc(key[..i], key[i]);
      ShiftAndAdd(Unwrapped(key[..i]), SignedChar(key[i]));
      hash := ((hash * 32 % WORD + hash) % WORD + SignedChar(key[i])) % WORD;
      i := i + 1;
    }
    assert key[..i] == key;
    slot := hash % size;
  }
}
