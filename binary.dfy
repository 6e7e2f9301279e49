/**
  `decToBinary`: the low `bits` bits of a non-negative number written into a
  fresh character buffer, most significant bit first, followed by a NUL
  terminator.
 */
module Binary {
  import opened Powers

  /** The source's `n >> i` on a non-negative `n`: `i` halvings. */
  function Shr(n: nat, i: nat): (r: nat)
  {
    if i == 0 then n else Shr(n / 2, i - 1)
  }

  function BitChar(isSet: bool): char
  {
    if isSet then '1' else '0'
  }

  predicate IsBinary(s: seq<char>)
  {
    forall k :: 0 <= k < |s| ==> s[k] == '0' || s[k] == '1'
  }

  /** The `bits`-character binary numeral of `n` modulo 2^bits, most
      significant digit first. */
  function ToBinary(n: nat, bits: nat): (s: seq<char>)
    ensures |s| == bits && IsBinary(s)
  {
    if bits == 0 then [] else ToBinary(n / 2, bits - 1) + [BitChar(n % 2 == 1)]
  }

  /** The value of a binary numeral, most significant digit first. */
  function FromBinary(s: seq<char>): (r: nat)
  {
    if s == [] then 0 else 2 * FromBinary(s[..|s| - 1]) + (if s[|s| - 1] == '1' then 1 else 0)
  }

  /** Shifting right by `i` is dividing by 2^i. */
  lemma {:induction false} ShrIsDiv(n: nat, i: nat)
    ensures Shr(n, i) == n / Pow2(i)
  {
    if i > 0 {
      ShrIsDiv(n / 2, i - 1);
      var p := Pow2(i - 1);
      var q, r := n / (2 * p), n % (2 * p);
      assert n == (p * q + r / 2) * 2 + r % 2;
      DivUnique(n, 2, p * q + r / 2, r % 2);
      DivUnique(n / 2, p, q, r / 2);
    }
  }

  /** Position `bits-1-i` of the numeral holds bit `i` of `n`. */
  lemma {:induction false} ToBinaryAt(n: nat, bits: nat, i: nat)
    requires i < bits
    ensures ToBinary(n, bits)[bits - 1 - i] == BitChar(Shr(n, i) % 2 == 1)
  {
    if i > 0 {
      ToBinaryAt(n / 2, bits - 1, i - 1);
    }
  }

  /** The character at position `bits-1-i` is '1' exactly when bit `i` of `n`
      is set. */
  lemma BitAt(n: nat, bits: nat, i: nat)
    requires i < bits
    ensures ToBinary(n, bits)[bits - 1 - i] == '1' <==> (n / Pow2(i)) % 2 == 1
  {
    ToBinaryAt(n, bits, i);
    ShrIsDiv(n, i);
  }

  /** Reading the numeral back gives `n` modulo 2^bits. */
  lemma {:induction false} FromToBinary(n: nat, bits: nat)
    ensures FromBinary(ToBinary(n, bits)) == n % Pow2(bits)
  {
    if bits > 0 {
      var s := ToBinary(n, bits);
      assert s[..bits - 1] == ToBinary(n / 2, bits - 1);
      FromToBinary(n / 2, bits - 1);
      HalveMod(n, Pow2(bits - 1));
    }
  }

  /** A numeral of `bits` digits for a number below 2^bits loses nothing. */
  lemma FromToBinaryExact(n: nat, bits: nat)
    requires n < Pow2(bits)
    ensures FromBinary(ToBinary(n, bits)) == n
  {
  }

  /** Every numeral is the numeral of its own value. */
  lemma {:induction false} ToFromBinary(s: seq<char>)
    requires IsBinary(s)
    ensures ToBinary(FromBinary(s), |s|) == s
  {
    if s != [] {
      var init := s[..|s| - 1];
      assert IsBinary(init);
      ToFromBinary(init);
      assert s == init + [s[|s| - 1]];
    }
  }

  /** The source's `decToBinary(n, bits)`: a buffer of `bits + 1` characters,
      the numeral followed by a NUL. */
  method DecToBinary(n: nat, bits: nat) returns (binary: array<char>)
    ensures binary.Length == bits + 1
    ensures binary[..bits] == ToBinary(n, bits)
    ensures binary[bits] == '\0'
  {
    binary := new char[bits + 1];
    var i: int := bits - 1;
    while i >= 0
      invariant -1 <= i < bits
      invariant forall p :: 0 <= p < bits - 1 - i ==> binary[p] == ToBinary(n, bits)[p]
    {
      var k := Shr(n, i);
      if k % 2 == 1 {
        binary[bits - i - 1] := '1';
      } else {
        binary[bits - i - 1] := '0';
      }
      ToBinaryAt(n, bits, i);
      i := i - 1;
    }
    binary[bits] := '\0';
  }
}
