/** `IpPolicyMatcher.V6Network`: IPv6 prefixes as masked byte arrays. */
module Ipv6 {
  type Byte = bv8

  /** An address in network byte order, as `TryWriteBytes` gives it. */
  type Address = a: seq<Byte> | |a| == 16 witness seq(16, _ => 0)

  /** Bit `j` of a byte, most significant first. */
  predicate ByteBit(x: Byte, j: nat)
    requires j < 8
  {
    x & (0x80 >> j) != 0
  }

  /** Bit `i` of an address, most significant first. */
  predicate Bit(a: Address, i: nat)
    requires i < 128
  {
    ByteBit(a[i / 8], i % 8)
  }

  /** The two addresses agree on their first `prefix` bits. */
  ghost predicate SamePrefix(a: Address, b: Address, prefix: nat)
    requires prefix <= 128
  {
    forall i :: 0 <= i < prefix ==> (Bit(a, i) <==> Bit(b, i))
  }

  datatype V6Network = V6Network(network: Address, prefix: nat)

  // ---------------------------------------------------------------- bytes

  /** Equality under the mask `0xFF << (8 - n)`. */
  predicate EqualUnderMask(x: Byte, y: Byte, n: nat)
    requires 0 < n < 8
  {
    var mask: Byte := 0xFF << (8 - n);
    x & mask == y & mask
  }

  /** The bytes agree on their first `n` bits. */
  ghost predicate SameBits(x: Byte, y: Byte, n: nat)
    requires n <= 8
  {
    forall j :: 0 <= j < n ==> (ByteBit(x, j) <==> ByteBit(y, j))
  }

  lemma ByteFromBits(x: Byte, y: Byte)
    ensures x == y <==> SameBits(x, y, 8)
  {
    if SameBits(x, y, 8) {
      assert ByteBit(x, 0) <==> ByteBit(y, 0);
      assert ByteBit(x, 1) <==> ByteBit(y, 1);
      assert ByteBit(x, 2) <==> ByteBit(y, 2);
      assert ByteBit(x, 3) <==> ByteBit(y, 3);
      assert ByteBit(x, 4) <==> ByteBit(y, 4);
      assert ByteBit(x, 5) <==> ByteBit(y, 5);
      assert ByteBit(x, 6) <==> ByteBit(y, 6);
      assert ByteBit(x, 7) <==> ByteBit(y, 7);
    }
  }

  /** Clearing one bit of a byte changes that bit only. */
  lemma ClearBit(x: Byte, j: nat, k: nat)
    requires j < 8 && k < 8
    ensures ByteBit(x & !(0x80 >> j), k) <==> k != j && ByteBit(x, k)
  {
    var m: Byte := 0x80 >> j;
    assert j == 0 || j == 1 || j == 2 || j == 3 || j == 4 || j == 5 || j == 6 || j == 7;
    assert k == 0 || k == 1 || k == 2 || k == 3 || k == 4 || k == 5 || k == 6 || k == 7;
  }

  /** The mask `0xFF << (8 - n)` keeps the first `n` bits. */
  lemma KeepBits(x: Byte, n: nat, j: nat)
    requires 0 < n < 8 && j < 8
    ensures ByteBit(x & (0xFF << (8 - n)), j) <==> j < n && ByteBit(x, j)
  {
    assert n == 1 || n == 2 || n == 3 || n == 4 || n == 5 || n == 6 || n == 7;
    assert j == 0 || j == 1 || j == 2 || j == 3 || j == 4 || j == 5 || j == 6 || j == 7;
  }

  lemma MaskedBytesAgree(x: Byte, y: Byte, n: nat)
    requires 0 < n < 8
    ensures EqualUnderMask(x, y, n) <==> SameBits(x, y, n)
  {
    var u, v: Byte := x & (0xFF << (8 - n)), y & (0xFF << (8 - n));
    ByteFromBits(u, v);
    forall j | 0 <= j < 8
      ensures ByteBit(u, j) <==> j < n && ByteBit(x, j)
      ensures ByteBit(v, j) <==> j < n && ByteBit(y, j)
    {
      KeepBits(x, n, j);
      KeepBits(y, n, j);
    }
    if u == v {
      forall j | 0 <= j < n ensures ByteBit(x, j) <==> ByteBit(y, j) { assert ByteBit(u, j) <==> ByteBit(v, j); }
    }
  }

  lemma BitOf(a: Address, i: nat, j: nat)
    requires i < 16 && j < 8
    ensures Bit(a, 8 * i + j) == ByteBit(a[i], j)
  {
    assert (8 * i + j) / 8 == i && (8 * i + j) % 8 == j;
  }

  lemma PrefixToByte(a: Address, b: Address, i: nat, n: nat)
    requires i < 16 && n <= 8 && SamePrefix(a, b, 8 * i + n)
    ensures SameBits(a[i], b[i], n)
  {
    forall j | 0 <= j < n ensures ByteBit(a[i], j) <==> ByteBit(b[i], j) {
      BitOf(a, i, j);
      BitOf(b, i, j);
    }
  }

  lemma ByteToPrefix(a: Address, b: Address, i: nat, n: nat)
    requires i < 16 && n <= 8 && SamePrefix(a, b, 8 * i) && SameBits(a[i], b[i], n)
    ensures SamePrefix(a, b, 8 * i + n)
  {
    forall k | 8 * i <= k < 8 * i + n ensures Bit(a, k) <==> Bit(b, k) {
      BitOf(a, i, k - 8 * i);
      BitOf(b, i, k - 8 * i);
    }
  }

  /** Beyond `i` equal bytes, the masked next byte decides a longer common prefix. */
  lemma LastByteDecides(a: Address, b: Address, i: nat, n: nat)
    requires i < 16 && 0 < n < 8 && SamePrefix(a, b, 8 * i)
    ensures SamePrefix(a, b, 8 * i + n) <==> EqualUnderMask(a[i], b[i], n)
  {
    MaskedBytesAgree(a[i], b[i], n);
    if SamePrefix(a, b, 8 * i + n) { PrefixToByte(a, b, i, n); }
    if SameBits(a[i], b[i], n) { ByteToPrefix(a, b, i, n); }
  }

  lemma DifferentByte(a: Address, b: Address, i: nat, prefix: nat)
    requires 8 * i + 8 <= prefix <= 128 && a[i] != b[i]
    ensures !SamePrefix(a, b, prefix)
  {
    ByteFromBits(a[i], b[i]);
    if SamePrefix(a, b, prefix) {
      assert SamePrefix(a, b, 8 * i + 8);
      PrefixToByte(a, b, i, 8);
    }
  }

  // ---------------------------------------------------------------- networks

  lemma ClearedBit(network: Address, bit: nat, i: nat)
    requires bit < 128 && i < 128
    ensures Bit(network[bit / 8 := network[bit / 8] & !(0x80 >> (bit % 8))], i) <==> i != bit && Bit(network, i)
  {
    if i / 8 == bit / 8 { ClearBit(network[bit / 8], bit % 8, i % 8); }
  }

  /** Builds the network: host bits of the base address are cleared, so any base in it will do. */
  method MakeNetwork(base: Address, prefix: nat) returns (net: V6Network)
    requires prefix <= 128
    ensures net.prefix == prefix
    ensures SamePrefix(net.network, base, prefix)
    ensures forall i :: prefix <= i < 128 ==> !Bit(net.network, i)
  {
    var network: Address := base;
    for bit := prefix to 128
      invariant SamePrefix(network, base, prefix)
      invariant forall i :: prefix <= i < bit ==> !Bit(network, i)
    {
      var cleared := network[bit / 8] & !(0x80 >> (bit % 8));
      var next: Address := network[bit / 8 := cleared];
      forall i | 0 <= i < 128 ensures Bit(next, i) <==> i != bit && Bit(network, i) { ClearedBit(network, bit, i); }
      network := next;
    }
    net := V6Network(network, prefix);
  }

  /** Byte comparison and one masked byte: exactly the addresses with the prefix of the network. */
  method Contains(net: V6Network, address: Address) returns (inside: bool)
    requires net.prefix <= 128
    ensures inside <==> SamePrefix(address, net.network, net.prefix)
  {
    var fullBytes := net.prefix / 8;
    for i := 0 to fullBytes
      invariant SamePrefix(address, net.network, 8 * i)
    {
      if address[i] != net.network[i] {
        DifferentByte(address, net.network, i, net.prefix);
        return false;
      }
      ByteToPrefix(address, net.network, i, 8);
    }
    var remainingBits := net.prefix % 8;
    if remainingBits == 0 { return true; }
    LastByteDecides(address, net.network, fullBytes, remainingBits);
    return EqualUnderMask(address[fullBytes], net.network[fullBytes], remainingBits);
  }
}
