/** Bytes and the numbers below 256, by their binary digits. */
module Bytes {
  predicate Odd(x: nat) {
    x % 2 == 1
  }

  function Bit(x: bool, place: bv8): bv8 {
    if x then place else 0
  }

  function FromBits(b0: bool, b1: bool, b2: bool, b3: bool, b4: bool, b5: bool, b6: bool, b7: bool): bv8 {
    Bit(b0, 1) | Bit(b1, 2) | Bit(b2, 4) | Bit(b3, 8) | Bit(b4, 16) | Bit(b5, 32) | Bit(b6, 64) | Bit(b7, 128)
  }

  /** The byte with the binary digits of x < 256. */
  function ToByte(x: nat): bv8
    requires x < 256
  {
    var x1 := x / 2;
    var x2 := x1 / 2;
    var x3 := x2 / 2;
    var x4 := x3 / 2;
    var x5 := x4 / 2;
    var x6 := x5 / 2;
    var x7 := x6 / 2;
    FromBits(Odd(x), Odd(x1), Odd(x2), Odd(x3), Odd(x4), Odd(x5), Odd(x6), Odd(x7))
  }

  function Weight(x: bool, place: nat): nat {
    if x then place else 0
  }

  function ToNat(b: bv8): nat {
    Weight(b & 1 != 0, 1) + Weight(b & 2 != 0, 2) + Weight(b & 4 != 0, 4) + Weight(b & 8 != 0, 8)
    + Weight(b & 16 != 0, 16) + Weight(b & 32 != 0, 32) + Weight(b & 64 != 0, 64) + Weight(b & 128 != 0, 128)
  }

  lemma BitsOfByte(b0: bool, b1: bool, b2: bool, b3: bool, b4: bool, b5: bool, b6: bool, b7: bool)
    ensures var b := FromBits(b0, b1, b2, b3, b4, b5, b6, b7);
      && (b & 1 != 0) == b0 && (b & 2 != 0) == b1 && (b & 4 != 0) == b2 && (b & 8 != 0) == b3
      && (b & 16 != 0) == b4 && (b & 32 != 0) == b5 && (b & 64 != 0) == b6 && (b & 128 != 0) == b7
  {
  }

  lemma LowDigit(x: nat)
    ensures x == Weight(Odd(x), 1) + 2 * (x / 2)
  {
    assert x == x % 2 + 2 * (x / 2);
  }

  lemma FourDigits(x: nat, x1: nat, x2: nat, x3: nat)
    requires x1 == x / 2 && x2 == x1 / 2 && x3 == x2 / 2
    ensures x == Weight(Odd(x), 1) + Weight(Odd(x1), 2) + Weight(Odd(x2), 4) + Weight(Odd(x3), 8) + 16 * (x3 / 2)
  {
    hide Odd;
    LowDigit(x);
    LowDigit(x1);
    LowDigit(x2);
    LowDigit(x3);
  }

  lemma SixteenTimes(b: bool)
    ensures Weight(b, 16) == 16 * Weight(b, 1) && Weight(b, 32) == 16 * Weight(b, 2)
    ensures Weight(b, 64) == 16 * Weight(b, 4) && Weight(b, 128) == 16 * Weight(b, 8)
  {
  }

  lemma HighDigits(x: nat, x1: nat, x2: nat, x3: nat)
    requires x < 16 && x1 == x / 2 && x2 == x1 / 2 && x3 == x2 / 2
    ensures 16 * x == Weight(Odd(x), 16) + Weight(Odd(x1), 32) + Weight(Odd(x2), 64) + Weight(Odd(x3), 128)
  {
    hide Odd, Weight;
    FourDigits(x, x1, x2, x3);
    SixteenTimes(Odd(x));
    SixteenTimes(Odd(x1));
    SixteenTimes(Odd(x2));
    SixteenTimes(Odd(x3));
  }

  lemma NatFromBits(b0: bool, b1: bool, b2: bool, b3: bool, b4: bool, b5: bool, b6: bool, b7: bool)
    ensures ToNat(FromBits(b0, b1, b2, b3, b4, b5, b6, b7)) ==
            Weight(b0, 1) + Weight(b1, 2) + Weight(b2, 4) + Weight(b3, 8)
            + Weight(b4, 16) + Weight(b5, 32) + Weight(b6, 64) + Weight(b7, 128)
  {
    hide FromBits, Weight;
    BitsOfByte(b0, b1, b2, b3, b4, b5, b6, b7);
  }

  /** A byte made from a number has that number. */
  lemma ByteValue(x: nat)
    requires x < 256
    ensures ToNat(ToByte(x)) == x
  {
    hide Odd, FromBits, ToNat, Weight;
    var x1 := x / 2;
    var x2 := x1 / 2;
    var x3 := x2 / 2;
    var x4 := x3 / 2;
    var x5 := x4 / 2;
    var x6 := x5 / 2;
    var x7 := x6 / 2;
    FourDigits(x, x1, x2, x3);
    HighDigits(x4, x5, x6, x7);
    NatFromBits(Odd(x), Odd(x1), Odd(x2), Odd(x3), Odd(x4), Odd(x5), Odd(x6), Odd(x7));
  }
}
