/** Integers as octets, least significant first, as a little-endian host keeps them. */
module Endian {
  import opened Bytes
  import Arith

  /** The low octets of a number, least significant first; negative numbers in two's complement. */
  function LittleEndian(v: int, n: nat): (r: bytes)
    ensures |r| == n
    decreases n
  {
    if n == 0 then [] else [v % 0x100] + LittleEndian(v / 0x100, n - 1)
  }

  function Power256(n: nat): (r: nat)
    ensures r > 0
  {
    if n == 0 then 1 else 0x100 * Power256(n - 1)
  }

  function FromLittleEndian(s: bytes): nat {
    if s == [] then 0 else s[0] as int + 0x100 * FromLittleEndian(s[1..])
  }

  /** The signed number with these octets. */
  function Signed(s: bytes): int {
    var v := FromLittleEndian(s);
    if 2 * v >= Power256(|s|) then v - Power256(|s|) else v
  }

  /** The octet at `i` is the one of weight 256 to the power of i. */
  lemma {:induction false} OctetOf(v: int, n: nat, i: nat)
    requires i < n
    ensures LittleEndian(v, n)[i] == v / Power256(i) % 0x100
    decreases n
  {
    if i > 0 {
      OctetOf(v / 0x100, n - 1, i - 1);
      Arith.QuotientByProduct(v, 0x100, Power256(i - 1));
    }
  }

  lemma {:induction false} LittleEndianInverse(v: int, n: nat)
    ensures FromLittleEndian(LittleEndian(v, n)) == v % Power256(n)
    decreases n
  {
    if n > 0 {
      LittleEndianInverse(v / 0x100, n - 1);
      assert LittleEndian(v, n)[1..] == LittleEndian(v / 0x100, n - 1);
      Arith.RemainderByProduct(v, 0x100, Power256(n - 1));
    }
  }

  lemma SignedInverse(v: int, n: nat)
    requires n > 0 && -(Power256(n) as int) <= 2 * v < Power256(n)
    ensures Signed(LittleEndian(v, n)) == v
  {
    LittleEndianInverse(v, n);
    var p := Power256(n);
    Arith.RemainderUnique(v, p, if v < 0 then -1 else 0, if v < 0 then v + p else v);
  }
}
