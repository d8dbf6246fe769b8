/**
  Helpers of the bridge's `common` package that the swap-in verification relies on:
  case-insensitive address comparison, the textual form of an address, the
  decoding of an address out of an indexed event topic, and the decoding of an
  unsigned big integer out of event data.
 */
module Common {

  datatype Option<+T> = None | Some(value: T)

  type byte = x: int | 0 <= x < 256

  /** A 32-byte word: an event topic or one ABI slot. */
  type Hash = h: seq<byte> | |h| == 32 witness seq(32, _ => 0)

  /** A 20-byte account or contract address. */
  type Address = a: seq<byte> | |a| == 20 witness seq(20, _ => 0)

  // ---------------------------------------------------------------------------
  // Case folding

  /** ASCII lower-casing of one character; every other character is kept. */
  function LowerChar(c: char): char {
    if 'A' <= c <= 'Z' then (c as int - 'A' as int + 'a' as int) as char else c
  }

  predicate IsLower(s: string) {
    forall i :: 0 <= i < |s| ==> !('A' <= s[i] <= 'Z')
  }

  /** `strings.ToLower`, restricted to ASCII letters. */
  function ToLower(s: string): (r: string)
    ensures |r| == |s|
  {
    seq(|s|, i requires 0 <= i < |s| => LowerChar(s[i]))
  }

  /** Lower-casing yields a lower-case string and leaves a lower-case string unchanged. */
  lemma ToLowerIsLower(s: string)
    ensures IsLower(ToLower(s))
    ensures IsLower(s) ==> ToLower(s) == s
  {
  }

  /** `common.IsEqualIgnoreCase`: equality after folding both sides to lower case. */
  predicate EqualIgnoreCase(a: string, b: string) {
    ToLower(a) == ToLower(b)
  }

  /** Lower-casing never changes what `EqualIgnoreCase` decides. */
  lemma EqualIgnoreCaseLower(a: string, b: string)
    ensures EqualIgnoreCase(a, b) <==> EqualIgnoreCase(ToLower(a), b)
    ensures EqualIgnoreCase(a, b) <==> EqualIgnoreCase(a, ToLower(b))
  {
    ToLowerIsLower(a);
    ToLowerIsLower(ToLower(a));
    ToLowerIsLower(b);
    ToLowerIsLower(ToLower(b));
  }

  // ---------------------------------------------------------------------------
  // Textual form of byte strings and addresses

  function HexChar(n: int): char
    requires 0 <= n < 16
  {
    if n < 10 then ('0' as int + n) as char else ('a' as int + n - 10) as char
  }

  /** Two lower-case hexadecimal digits per byte, most significant nibble first. */
  function HexDigits(bs: seq<byte>): (r: string)
    ensures |r| == 2 * |bs|
  {
    if |bs| == 0 then []
    else [HexChar(bs[0] / 16), HexChar(bs[0] % 16)] + HexDigits(bs[1..])
  }

  /**
    `Address.String()`: "0x" followed by the hexadecimal digits. The EIP-55
    mixed-case checksum spelling is folded to lower case here.
   */
  function Hex(a: Address): (r: string)
    ensures |r| == 42
  {
    "0x" + HexDigits(a)
  }

  lemma {:induction false} HexDigitsIsLower(bs: seq<byte>)
    ensures IsLower(HexDigits(bs))
  {
    if |bs| > 0 {
      HexDigitsIsLower(bs[1..]);
    }
  }

  /** The textual form of an address is already lower case, so lower-casing it changes nothing. */
  lemma HexIsLower(a: Address)
    ensures IsLower(Hex(a))
    ensures ToLower(Hex(a)) == Hex(a)
  {
    HexDigitsIsLower(a);
    ToLowerIsLower(Hex(a));
  }

  lemma HexCharInjective(m: int, n: int)
    requires 0 <= m < 16 && 0 <= n < 16
    ensures HexChar(m) == HexChar(n) ==> m == n
  {
  }

  lemma {:induction false} HexDigitsInjective(a: seq<byte>, b: seq<byte>)
    requires |a| == |b|
    ensures HexDigits(a) == HexDigits(b) ==> a == b
  {
    if |a| > 0 && HexDigits(a) == HexDigits(b) {
      var ha, hb := HexDigits(a), HexDigits(b);
      assert ha[0] == hb[0] && ha[1] == hb[1];
      HexCharInjective(a[0] / 16, b[0] / 16);
      HexCharInjective(a[0] % 16, b[0] % 16);
      assert a[0] == b[0];
      assert HexDigits(a[1..]) == ha[2..];
      assert HexDigits(b[1..]) == hb[2..];
      HexDigitsInjective(a[1..], b[1..]);
      assert a == [a[0]] + a[1..];
      assert b == [b[0]] + b[1..];
    }
  }

  /** Two addresses have case-insensitively equal textual forms only if they are the same address. */
  lemma HexInjective(a: Address, b: Address)
    ensures EqualIgnoreCase(Hex(a), Hex(b)) <==> a == b
  {
    if EqualIgnoreCase(Hex(a), Hex(b)) {
      HexIsLower(a);
      HexIsLower(b);
      assert Hex(a) == Hex(b);
      assert HexDigits(a) == Hex(a)[2..];
      assert HexDigits(b) == Hex(b)[2..];
      HexDigitsInjective(a, b);
    }
  }

  // ---------------------------------------------------------------------------
  // Indexed address arguments

  /** `common.BytesToAddress` on a 32-byte topic: the last 20 bytes. */
  function BytesToAddress(h: Hash): Address {
    h[12..]
  }

  /** How an indexed `address` argument is stored in a topic: left-padded with 12 zero bytes. */
  function AddressToTopic(a: Address): Hash {
    seq(12, _ => 0) + a
  }

  lemma TopicAddressRoundTrip(a: Address)
    ensures BytesToAddress(AddressToTopic(a)) == a
  {
    assert AddressToTopic(a)[12..] == a;
  }

  // ---------------------------------------------------------------------------
  // Unsigned big integers

  function Pow256(n: nat): nat {
    if n == 0 then 1 else 256 * Pow256(n - 1)
  }

  /** Big-endian unsigned value of a byte string (`big.Int.SetBytes`). */
  function BigEndian(bs: seq<byte>): nat {
    if |bs| == 0 then 0 else BigEndian(bs[..|bs| - 1]) * 256 + bs[|bs| - 1]
  }

  /** The big-endian encoding of `v` in exactly `n` bytes, keeping the low-order bytes. */
  function EncodeUint(v: nat, n: nat): (r: seq<byte>)
    ensures |r| == n
  {
    if n == 0 then [] else EncodeUint(v / 256, n - 1) + [v % 256]
  }

  lemma {:induction false} BigEndianBound(bs: seq<byte>)
    ensures BigEndian(bs) < Pow256(|bs|)
  {
    if |bs| > 0 {
      var init := bs[..|bs| - 1];
      BigEndianBound(init);
      assert BigEndian(init) + 1 <= Pow256(|init|);
      assert BigEndian(init) * 256 + 256 <= Pow256(|init|) * 256;
    }
  }

  lemma {:induction false} EncodeUintRoundTrip(v: nat, n: nat)
    requires v < Pow256(n)
    ensures BigEndian(EncodeUint(v, n)) == v
  {
    if n > 0 {
      var e := EncodeUint(v, n);
      assert v / 256 < Pow256(n - 1);
      EncodeUintRoundTrip(v / 256, n - 1);
      assert e[..|e| - 1] == EncodeUint(v / 256, n - 1);
      assert e[|e| - 1] == v % 256;
    }
  }

  /**
    The `size` bytes of `data` starting at `start`, zero-padded on the right when
    `data` is shorter (the getData convention of go-ethereum).
   */
  function GetData(data: seq<byte>, start: nat, size: nat): (r: seq<byte>)
    ensures |r| == size
    ensures forall i :: 0 <= i < size ==> r[i] == (if start + i < |data| then data[start + i] else 0)
  {
    var s := if start > |data| then |data| else start;
    var e := if s + size > |data| then |data| else s + size;
    data[s..e] + seq(size - (e - s), _ => 0)
  }

  /** `common.GetBigInt(data, start, size)`. */
  function GetBigInt(data: seq<byte>, start: nat, size: nat): (r: nat)
    ensures r < Pow256(size)
    ensures start + size <= |data| ==> r == BigEndian(data[start..start + size])
  {
    var d := GetData(data, start, size);
    BigEndianBound(d);
    assert start + size <= |data| ==> d == data[start..start + size];
    BigEndian(d)
  }

  /** An ABI-encoded `uint256` slot decodes back to the value it encodes. */
  lemma Uint256RoundTrip(v: nat)
    requires v < Pow256(32)
    ensures GetBigInt(EncodeUint(v, 32), 0, 32) == v
  {
    var e := EncodeUint(v, 32);
    assert e[0..32] == e;
    EncodeUintRoundTrip(v, 32);
  }
}
