/** 256-bit unsigned ledger keys: wrapping decrement, and the hexadecimal
    text form used for resume markers (to_string on the way out, SetHex on the
    way back in). */
module Uint256 {
  import opened Results

  /** 2^256: the number of distinct keys. */
  const Modulus: nat := 0x1_0000000000000000_0000000000000000_0000000000000000_0000000000000000

  type U256 = x: int | 0 <= x < 0x1_0000000000000000_0000000000000000_0000000000000000_0000000000000000

  /** `--key` on a 256-bit value: one less, wrapping from zero to the largest key. */
  function Decrement(k: U256): (r: U256)
    ensures k > 0 ==> r == k - 1
    ensures k == 0 ==> r == Modulus - 1
  {
    if k == 0 then Modulus - 1 else k - 1
  }

  /** `++key` on a 256-bit value, wrapping from the largest key to zero. */
  function Increment(k: U256): U256
  {
    if k == Modulus - 1 then 0 else k + 1
  }

  /** Decrement and increment undo each other for every key, including the
      wrap at zero. */
  lemma DecrementIncrement(k: U256)
    ensures Increment(Decrement(k)) == k
    ensures Decrement(Increment(k)) == k
  {
  }

  function Pow16(n: nat): (r: nat)
    ensures r > 0
  {
    if n == 0 then 1 else 16 * Pow16(n - 1)
  }

  lemma Pow16Sum(a: nat, b: nat)
    ensures Pow16(a + b) == Pow16(a) * Pow16(b)
  {
    if a > 0 {
      Pow16Sum(a - 1, b);
    }
  }

  /** Sixty-four hex digits hold exactly the 256-bit range. */
  lemma Pow16Width()
    ensures Pow16(64) == Modulus
  {
    assert Pow16(4) == 0x1_0000;
    Pow16Sum(4, 4);
    assert Pow16(8) == 0x1_0000_0000;
    Pow16Sum(8, 8);
    assert Pow16(16) == 0x1_0000000000000000;
    Pow16Sum(16, 16);
    assert Pow16(32) == 0x1_0000000000000000_0000000000000000;
    Pow16Sum(32, 32);
  }

  predicate IsHexDigit(c: char)
  {
    ('0' <= c <= '9') || ('a' <= c <= 'f') || ('A' <= c <= 'F')
  }

  function DigitValue(c: char): (d: nat)
    requires IsHexDigit(c)
    ensures d < 16
  {
    if '0' <= c <= '9' then (c - '0') as nat
    else if 'a' <= c <= 'f' then (c - 'a') as nat + 10
    else (c - 'A') as nat + 10
  }

  /** The upper-case digit for a value below sixteen. */
  function Digit(d: nat): (c: char)
    requires d < 16
    ensures IsHexDigit(c) && DigitValue(c) == d
  {
    if d < 10 then ('0' as int + d) as char else ('A' as int + d - 10) as char
  }

  /** The value of a string of hex digits, most significant first. */
  function HexValue(s: string): nat
    requires forall i :: 0 <= i < |s| ==> IsHexDigit(s[i])
  {
    if |s| == 0 then 0 else HexValue(s[..|s| - 1]) * 16 + DigitValue(s[|s| - 1])
  }

  /** The last `n` hex digits of `x`, most significant first, zero-padded. */
  function HexDigits(x: nat, n: nat): (s: string)
    ensures |s| == n
    ensures forall i :: 0 <= i < |s| ==> IsHexDigit(s[i])
  {
    if n == 0 then [] else HexDigits(x / 16, n - 1) + [Digit(x % 16)]
  }

  /** Reading back `n` digits written for a value below 16^n gives the value. */
  lemma {:induction false} HexDigitsValue(x: nat, n: nat)
    requires x < Pow16(n)
    ensures HexValue(HexDigits(x, n)) == x
  {
    if n > 0 {
      var s := HexDigits(x, n);
      assert s[..|s| - 1] == HexDigits(x / 16, n - 1);
      assert x / 16 < Pow16(n - 1);
      HexDigitsValue(x / 16, n - 1);
    }
  }

  /** to_string of a key: exactly sixty-four upper-case hex digits. */
  function ToHex(x: U256): (s: string)
    ensures |s| == 64
    ensures forall i :: 0 <= i < |s| ==> IsHexDigit(s[i])
  {
    HexDigits(x, 64)
  }

  /** SetHex on a key: a string of hex digits is accepted and read modulo 2^256
      (only its last sixty-four digits matter); any other character rejects it. */
  function SetHex(s: string): (r: Option<U256>)
    ensures r.Some? <==> forall i :: 0 <= i < |s| ==> IsHexDigit(s[i])
  {
    if forall i :: 0 <= i < |s| ==> IsHexDigit(s[i]) then Some(HexValue(s) % Modulus) else None
  }

  /** Every key printed by ToHex is accepted by SetHex and read back unchanged. */
  lemma SetHexToHex(x: U256)
    ensures SetHex(ToHex(x)) == Some(x)
  {
    var s := ToHex(x);
    Pow16Width();
    HexDigitsValue(x, 64);
    assert HexValue(s) == x;
    assert HexValue(s) % Modulus == x;
  }
}
