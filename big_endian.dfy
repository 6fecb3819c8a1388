/**
 * Unsigned big-endian integers: how the central turns a characteristic's raw
 * bytes into a number (Python's `int.from_bytes(b, "big")`).
 */
module BigEndian {

  newtype byte = x: int | 0 <= x < 256

  /** 256 raised to the power n. */
  function Pow256(n: nat): nat
  {
    if n == 0 then 1 else 256 * Pow256(n - 1)
  }

  /** The unsigned value of b, most significant byte first; 0 for no bytes. */
  function ToNat(b: seq<byte>): nat
  {
    if |b| == 0 then 0 else ToNat(b[..|b| - 1]) * 256 + b[|b| - 1] as nat
  }

  /** Reference definition: the positional sum of b[i] * 256^(|b|-1-i). */
  function PositionalSum(b: seq<byte>): nat
  {
    if |b| == 0 then 0 else b[0] as nat * Pow256(|b| - 1) + PositionalSum(b[1..])
  }

  /** Prepending a byte adds it at the weight of the most significant position. */
  lemma {:induction false} ToNatPrepend(x: byte, t: seq<byte>)
    ensures ToNat([x] + t) == x as nat * Pow256(|t|) + ToNat(t)
    decreases |t|
  {
    if |t| > 0 {
      var s := [x] + t;
      var init := t[..|t| - 1];
      assert s[..|s| - 1] == [x] + init;
      ToNatPrepend(x, init);
      calc {
        ToNat(s);
        ToNat([x] + init) * 256 + t[|t| - 1] as nat;
        (x as nat * Pow256(|init|) + ToNat(init)) * 256 + t[|t| - 1] as nat;
        x as nat * (Pow256(|init|) * 256) + (ToNat(init) * 256 + t[|t| - 1] as nat);
        x as nat * Pow256(|t|) + ToNat(t);
      }
    }
  }

  /** The recursive decoder computes exactly the positional sum. */
  lemma {:induction false} ToNatIsPositionalSum(b: seq<byte>)
    ensures ToNat(b) == PositionalSum(b)
    decreases |b|
  {
    if |b| > 0 {
      assert b == [b[0]] + b[1..];
      ToNatPrepend(b[0], b[1..]);
      ToNatIsPositionalSum(b[1..]);
    }
  }

  /** n bytes hold values 0 .. 256^n - 1 and never a negative one. */
  lemma {:induction false} ToNatBounded(b: seq<byte>)
    ensures 0 <= ToNat(b) < Pow256(|b|)
    decreases |b|
  {
    if |b| > 0 {
      var init := b[..|b| - 1];
      ToNatBounded(init);
      assert ToNat(init) + 1 <= Pow256(|init|);
      assert (ToNat(init) + 1) * 256 <= Pow256(|init|) * 256;
    }
  }

  /** A leading zero byte does not change the value. */
  lemma ToNatLeadingZero(t: seq<byte>)
    ensures ToNat([0] + t) == ToNat(t)
  {
    ToNatPrepend(0, t);
  }

  /** n zero bytes. */
  function Zeros(n: nat): seq<byte>
  {
    if n == 0 then [] else [0] + Zeros(n - 1)
  }

  /** Leading zero bytes of any number do not change the value. */
  lemma {:induction false} ToNatLeadingZeros(n: nat, t: seq<byte>)
    ensures ToNat(Zeros(n) + t) == ToNat(t)
    decreases n
  {
    if n > 0 {
      assert Zeros(n) + t == [0] + (Zeros(n - 1) + t);
      ToNatLeadingZero(Zeros(n - 1) + t);
      ToNatLeadingZeros(n - 1, t);
    } else {
      assert Zeros(n) + t == t;
    }
  }

  /** Appending a byte shifts the value one byte to the left (the unfolding used for short payloads). */
  lemma ToNatAppend(b: seq<byte>, x: byte)
    ensures ToNat(b + [x]) == ToNat(b) * 256 + x as nat
  {
  }
}
