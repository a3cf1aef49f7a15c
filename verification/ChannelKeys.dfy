/** Channel keys, hashes and names of src/crypto.rs. */
module ChannelKeys {
  import opened Bytes
  import opened Protocol

  const DEFAULT_PSK: seq<byte> := [0xd4, 0xf1, 0xbb, 0x3a, 0x20, 0x29, 0x07, 0x59,
                                   0xf0, 0xbc, 0xff, 0xab, 0xcf, 0x4e, 0x69, 0x01]

  datatype ChannelKey = ChannelKey(index: u32, name: Name, key: seq<byte>, hash: u32) {
    /** Every key the bridge holds was built from its name and key. */
    predicate WellHashed() {
      hash == ChannelHash(name, key)
    }
  }

  ghost predicate DistinctIndices(cs: seq<ChannelKey>) {
    forall i, j :: 0 <= i < j < |cs| ==> cs[i].index != cs[j].index
  }

  function ExpandPsk(psk: seq<byte>): seq<byte> {
    if |psk| == 1 then DEFAULT_PSK[15 := psk[0]] else psk
  }

  function XorAll(h: byte, bytes: seq<byte>): byte
    decreases |bytes|
  {
    if bytes == [] then h else XorAll(Xor(h, bytes[0]), bytes[1..])
  }

  function ChannelHash(name: Name, key: seq<byte>): u32 {
    XorAll(XorAll(0, name), key)
  }

  method ComputeChannelHash(name: Name, key: seq<byte>) returns (hash: u32)
    ensures hash == ChannelHash(name, key)
  {
    var h: byte := 0;
    for i := 0 to |name|
      invariant XorAll(h, name[i..]) == XorAll(0, name)
    {
      assert name[i..][1..] == name[i + 1..];
      h := Xor(h, name[i]);
    }
    ghost var h0 := h;
    for i := 0 to |key|
      invariant XorAll(h, key[i..]) == XorAll(h0, key)
    {
      assert key[i..][1..] == key[i + 1..];
      h := Xor(h, key[i]);
    }
    hash := h;
  }

  function FromProto(index: u32, name: Name, psk: seq<byte>): (ck: ChannelKey)
    ensures ck.WellHashed()
  {
    var key := ExpandPsk(psk);
    ChannelKey(index, name, key, ChannelHash(name, key))
  }

  function PresetName(modemPreset: int): (n: Name)
    ensures n != []
  {
    match modemPreset
    case 0 => Ascii("LongFast")
    case 1 => Ascii("LongSlow")
    case 3 => Ascii("MediumSlow")
    case 4 => Ascii("MediumFast")
    case 5 => Ascii("ShortSlow")
    case 6 => Ascii("ShortFast")
    case 7 => Ascii("LongMod")
    case 8 => Ascii("ShortTurbo")
    case 9 => Ascii("LongTurbo")
    case 10 => Ascii("LiteFast")
    case 11 => Ascii("LiteSlow")
    case 12 => Ascii("NarrowFast")
    case 13 => Ascii("NarrowSlow")
    case _ => Ascii("Invalid")
  }

  function DisplayName(name: Name, usePreset: bool, modemPreset: int): (n: Name)
    ensures n != []
  {
    if name != [] then name else if usePreset then PresetName(modemPreset) else Ascii("Custom")
  }

  function Without(s: seq<byte>, i: nat): seq<byte>
    requires i < |s|
  {
    s[..i] + s[i + 1..]
  }

  /** Any byte of a name may be taken first. */
  lemma {:induction false} XorAllPulls(h: byte, s: seq<byte>, i: nat)
    requires i < |s|
    ensures XorAll(h, s) == XorAll(Xor(h, s[i]), Without(s, i))
    decreases |s|
  {
    hide Xor;
    if i == 0 {
      assert Without(s, 0) == s[1..];
    } else {
      XorAllPulls(Xor(h, s[0]), s[1..], i - 1);
      XorSwap(h, s[0], s[i]);
      assert Without(s, i)[1..] == Without(s[1..], i - 1);
    }
  }

  lemma WithoutIsMultiset(s: seq<byte>, i: nat)
    requires i < |s|
    ensures multiset(Without(s, i)) == multiset(s) - multiset{s[i]}
  {
    assert s == s[..i] + [s[i]] + s[i + 1..];
  }

  lemma {:induction false} XorAllIgnoresOrder(h: byte, x: seq<byte>, y: seq<byte>)
    requires multiset(x) == multiset(y)
    ensures XorAll(h, x) == XorAll(h, y)
    decreases |x|
  {
    hide Xor;
    if x == [] {
      assert |multiset(y)| == 0;
    } else {
      assert x[0] in multiset(y);
      var i :| 0 <= i < |y| && y[i] == x[0];
      WithoutIsMultiset(x, 0);
      WithoutIsMultiset(y, i);
      XorAllIgnoresOrder(Xor(h, x[0]), Without(x, 0), Without(y, i));
      XorAllPulls(h, y, i);
      assert Without(x, 0) == x[1..];
    }
  }

  /** The hash does not see the order of a name's bytes: anagrams of any length share it. */
  lemma HashIgnoresOrder(x: Name, y: Name, key: seq<byte>)
    requires multiset(x) == multiset(y)
    ensures ChannelHash(x, key) == ChannelHash(y, key)
  {
    XorAllIgnoresOrder(0, x, y);
  }

  // ----- what the hash and the names are -----

  /** How many of these bytes have bit i set. */
  function Ones(bytes: seq<byte>, i: nat): nat
    decreases |bytes|
  {
    if bytes == [] then 0 else Bit(bytes[0], i) + Ones(bytes[1..], i)
  }

  lemma {:induction false} XorAllBit(h: byte, bytes: seq<byte>, i: nat)
    requires i < 8
    ensures Bit(XorAll(h, bytes), i) == (Bit(h, i) + Ones(bytes, i)) % 2
    decreases |bytes|
  {
    hide Xor, Bit;
    if bytes == [] {
    } else {
      XorBit(h, bytes[0], i);
      XorAllBit(Xor(h, bytes[0]), bytes[1..], i);
    }
  }

  lemma {:induction false} OnesConcat(a: seq<byte>, b: seq<byte>, i: nat)
    ensures Ones(a + b, i) == Ones(a, i) + Ones(b, i)
    decreases |a|
  {
    if a == [] {
      assert a + b == b;
    } else {
      assert (a + b)[1..] == a[1..] + b;
      OnesConcat(a[1..], b, i);
    }
  }

  /** Every bit of the hash is the parity of that bit over all bytes of name and key. */
  lemma HashIsParity(name: Name, key: seq<byte>, i: nat)
    requires i < 8
    ensures Bit(ChannelHash(name, key), i) == Ones(name + key, i) % 2 && ChannelHash(name, key) < 256
  {
    hide XorAll, Bit;
    assert Bit(0, i) == 0 by { ZeroBit(i); }
    XorAllBit(0, name, i);
    XorAllBit(XorAll(0, name), key, i);
    OnesConcat(name, key, i);
  }

  lemma {:induction false} ZeroBit(i: nat)
    ensures Bit(0, i) == 0
  {
    if i == 0 {
    } else {
      ZeroBit(i - 1);
    }
  }

  /** Only one-byte PSKs are expanded: to 16 bytes that differ in the last alone, which is the PSK's. */
  lemma ExpandsExactly(psk: seq<byte>, other: seq<byte>)
    ensures |psk| != 1 ==> ExpandPsk(psk) == psk
    ensures |psk| == 1 ==> |ExpandPsk(psk)| == 16 && ExpandPsk(psk)[15] == psk[0]
    ensures |psk| == 1 && |other| == 1 ==> ExpandPsk(psk)[..15] == ExpandPsk(other)[..15]
  {
  }

  /** Two more default names, "MediumFast" and "LongMod"; a preset without a name of its own is "Invalid". */
  lemma PresetNames(modemPreset: int)
    ensures DisplayName([], true, 4) == [0x4D, 0x65, 0x64, 0x69, 0x75, 0x6D, 0x46, 0x61, 0x73, 0x74]
    ensures DisplayName([], true, 7) == [0x4C, 0x6F, 0x6E, 0x67, 0x4D, 0x6F, 0x64]
    ensures modemPreset < 0 || modemPreset == 2 || modemPreset > 13 ==>
      DisplayName([], true, modemPreset) == [0x49, 0x6E, 0x76, 0x61, 0x6C, 0x69, 0x64]
  {
  }

  /** The default primary channel: its name is the preset's, "LongFast", and its key the well-known one. */
  lemma DefaultChannel()
    ensures DisplayName([], true, 0) == [0x4C, 0x6F, 0x6E, 0x67, 0x46, 0x61, 0x73, 0x74]
    ensures ExpandPsk([1]) == [0xd4, 0xf1, 0xbb, 0x3a, 0x20, 0x29, 0x07, 0x59,
                               0xf0, 0xbc, 0xff, 0xab, 0xcf, 0x4e, 0x69, 0x01]
  {
  }

  /** A channel's own name is shown if it has one; otherwise the preset's, or "Custom" without a preset. */
  lemma DisplaysExactly(name: Name, modemPreset: int)
    ensures name != [] ==> DisplayName(name, true, modemPreset) == DisplayName(name, false, modemPreset) == name
    ensures DisplayName([], true, modemPreset) == PresetName(modemPreset)
    ensures DisplayName([], false, modemPreset) == Ascii("Custom")
  {
  }
}
