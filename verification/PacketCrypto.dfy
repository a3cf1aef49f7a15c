/** Encrypting and decrypting packets with the channel table: encrypt_packet and decrypt_packet of
    src/bridge.rs. */
module PacketCrypto {
  import opened Bytes
  import opened Protocol
  import opened ChannelKeys
  import opened Crypto

  type Channels = seq<ChannelKey>

  // ----- specification -----

  /** Position of the first channel with a given index; |cs| when there is none. */
  function FindIndex(cs: Channels, index: u32): (i: nat)
    ensures i <= |cs| && (i < |cs| ==> cs[i].index == index)
    ensures forall j :: 0 <= j < i ==> cs[j].index != index
  {
    if cs == [] || cs[0].index == index then 0 else 1 + FindIndex(cs[1..], index)
  }

  function Encrypt(c: Codec, E: BlockCipher, cs: Channels, p: MeshPacket): MeshPacket {
    var i := FindIndex(cs, p.channel);
    if !p.payload.Decoded? || i == |cs| || cs[i].key == [] then p
    else p.(payload := Payload.Encrypted(Ctr(E, cs[i].key, p.from, p.id, c.encodeData(p.payload.data))),
            channel := cs[i].hash)
  }

  /** What a channel makes of an encrypted packet: nothing if its hash differs, it has no key, or the
      plaintext does not decode. */
  function Opens(c: Codec, E: BlockCipher, ck: ChannelKey, p: MeshPacket): Option<Data>
    requires p.payload.Encrypted?
  {
    if ck.hash != p.channel || ck.key == [] then None
    else c.decodeData(Ctr(E, ck.key, p.from, p.id, p.payload.bytes))
  }

  /** Position of the first channel that opens the packet; |cs| when none does. */
  function FirstOpener(c: Codec, E: BlockCipher, cs: Channels, p: MeshPacket): (i: nat)
    requires p.payload.Encrypted?
    ensures i <= |cs| && (i < |cs| ==> Opens(c, E, cs[i], p).Some?)
    ensures forall j :: 0 <= j < i ==> Opens(c, E, cs[j], p) == None
  {
    if cs == [] || Opens(c, E, cs[0], p).Some? then 0 else 1 + FirstOpener(c, E, cs[1..], p)
  }

  function Decrypt(c: Codec, E: BlockCipher, cs: Channels, p: MeshPacket): Option<MeshPacket> {
    if !p.payload.Encrypted? then Some(p)
    else
      var i := FirstOpener(c, E, cs, p);
      if i == |cs| then None
      else Some(p.(payload := Payload.Decoded(Opens(c, E, cs[i], p).value), channel := cs[i].index))
  }

  // ----- the code -----

  method EncryptPacket(c: Codec, E: BlockCipher, cs: Channels, packet: MeshPacket) returns (out: MeshPacket)
    ensures out == Encrypt(c, E, cs, packet)
  {
    out := packet;
    if !out.payload.Decoded? {
      return;
    }
    var decodedBytes := c.encodeData(out.payload.data);
    var i := FindIndex(cs, out.channel);
    if i == |cs| || cs[i].key == [] {
      return;
    }
    var ciphertext := AesCtrTransform(E, cs[i].key, out.from, out.id, decodedBytes);
    out := out.(payload := Payload.Encrypted(ciphertext));
    out := out.(channel := cs[i].hash);
  }

  method DecryptPacket(c: Codec, E: BlockCipher, cs: Channels, packet: MeshPacket)
    returns (ok: bool, out: MeshPacket)
    ensures ok <==> Decrypt(c, E, cs, packet).Some?
    ensures out == if ok then Decrypt(c, E, cs, packet).value else packet
  {
    out := packet;
    if !packet.payload.Encrypted? {
      return true, out;
    }
    for i := 0 to |cs|
      invariant forall j :: 0 <= j < i ==> Opens(c, E, cs[j], packet) == None
    {
      var ck := cs[i];
      if ck.hash != packet.channel {
        continue;
      }
      if ck.key == [] {
        continue;
      }
      var plaintext := AesCtrTransform(E, ck.key, packet.from, packet.id, packet.payload.bytes);
      var data := c.decodeData(plaintext);
      if data.Some? {
        FirstOpenerIs(c, E, cs, packet, i);
        out := packet.(payload := Payload.Decoded(data.value), channel := ck.index);
        return true, out;
      }
    }
    FirstOpenerIs(c, E, cs, packet, |cs|);
    return false, out;
  }

  lemma FirstOpenerIs(c: Codec, E: BlockCipher, cs: Channels, p: MeshPacket, i: nat)
    requires p.payload.Encrypted? && i <= |cs|
    requires i < |cs| ==> Opens(c, E, cs[i], p).Some?
    requires forall j :: 0 <= j < i ==> Opens(c, E, cs[j], p) == None
    ensures FirstOpener(c, E, cs, p) == i
  {
  }

  // ----- two bridges -----

  /** a encrypts for channel i of its table, and b holds the same name and key at position k. */
  ghost predicate SharedChannel(csA: Channels, csB: Channels, p: MeshPacket, k: nat) {
    var i := FindIndex(csA, p.channel);
    && p.payload.Decoded? && i < |csA| && csA[i].key != [] && csA[i].WellHashed()
    && k < |csB| && csB[k].WellHashed()
    && csB[k].name == csA[i].name && csB[k].key == csA[i].key
  }

  lemma SharedChannelOpens(c: Codec, E: BlockCipher, csA: Channels, csB: Channels, p: MeshPacket, k: nat)
    requires SharedChannel(csA, csB, p, k) && c.ReturnsData(p.payload.data)
    ensures Encrypt(c, E, csA, p).payload.Encrypted?
    ensures Opens(c, E, csB[k], Encrypt(c, E, csA, p)) == Some(p.payload.data)
  {
    CtrInverts(E, csB[k].key, p.from, p.id, c.encodeData(p.payload.data));
  }

  /** A packet encrypted by one bridge always decrypts at a bridge that has the channel, and gives the
      original data under the receiver's index - with distinct indices, if and only if no earlier channel
      opens it first. */
  lemma RoundTripAcrossBridges(c: Codec, E: BlockCipher, csA: Channels, csB: Channels, p: MeshPacket, k: nat)
    requires SharedChannel(csA, csB, p, k) && c.ReturnsData(p.payload.data)
    ensures var q := Encrypt(c, E, csA, p);
            && Decrypt(c, E, csB, q).Some?
            && FirstOpener(c, E, csB, q) <= k
            && (FirstOpener(c, E, csB, q) == k ==> Decrypt(c, E, csB, q) == Some(p.(channel := csB[k].index)))
            && (DistinctIndices(csB) ==>
                  (FirstOpener(c, E, csB, q) == k <==> Decrypt(c, E, csB, q) == Some(p.(channel := csB[k].index))))
  {
    SharedChannelOpens(c, E, csA, csB, p, k);
  }

  /** On one bridge the packet comes back unchanged if and only if no channel before its own opens it. */
  lemma RoundTripOnOneBridge(c: Codec, E: BlockCipher, cs: Channels, p: MeshPacket)
    requires SharedChannel(cs, cs, p, FindIndex(cs, p.channel)) && c.ReturnsData(p.payload.data)
    ensures var q := Encrypt(c, E, cs, p);
            && Decrypt(c, E, cs, q).Some?
            && ((forall j :: 0 <= j < FindIndex(cs, p.channel) ==> Opens(c, E, cs[j], q) == None)
                 <==> Decrypt(c, E, cs, q) == Some(p))
  {
    var i, q := FindIndex(cs, p.channel), Encrypt(c, E, cs, p);
    SharedChannelOpens(c, E, cs, cs, p, i);
    var k := FirstOpener(c, E, cs, q);
    if k < i {
      assert cs[k].index != p.channel;
    } else {
      FirstOpenerIs(c, E, cs, q, i);
    }
  }

  /** b holds, at position j, a channel with the key of the one a encrypts for and a name made of the
      same bytes. */
  ghost predicate AnagramChannel(csA: Channels, csB: Channels, p: MeshPacket, j: nat) {
    var i := FindIndex(csA, p.channel);
    && p.payload.Decoded? && i < |csA| && csA[i].key != [] && csA[i].WellHashed()
    && j < |csB| && csB[j].WellHashed()
    && multiset(csB[j].name) == multiset(csA[i].name) && csB[j].key == csA[i].key
  }

  /** The hash does not tell channels apart whose names are anagrams: with the same key, such a channel
      opens the other's packets, and takes them unless one before it does. */
  lemma AnagramTakesPackets(c: Codec, E: BlockCipher, csA: Channels, csB: Channels, p: MeshPacket, j: nat)
    requires AnagramChannel(csA, csB, p, j) && c.ReturnsData(p.payload.data)
    ensures var q := Encrypt(c, E, csA, p);
            && q.payload.Encrypted? && Opens(c, E, csB[j], q) == Some(p.payload.data)
            && FirstOpener(c, E, csB, q) <= j
            && (FirstOpener(c, E, csB, q) == j ==> Decrypt(c, E, csB, q) == Some(p.(channel := csB[j].index)))
  {
    var ck := csA[FindIndex(csA, p.channel)];
    HashIgnoresOrder(csB[j].name, ck.name, ck.key);
    CtrInverts(E, ck.key, p.from, p.id, c.encodeData(p.payload.data));
  }

  /** Two channels of one bridge, named [b, a] and [a, b]: the second never gets its own packets. */
  lemma AnagramInstance(c: Codec, E: BlockCipher, p: MeshPacket, a: byte, b: byte, key: seq<byte>)
    requires key != [] && p.payload.Decoded? && p.channel == 1 && c.ReturnsData(p.payload.data)
    ensures var first := ChannelKey(0, [b, a], key, ChannelHash([b, a], key));
            var second := ChannelKey(1, [a, b], key, ChannelHash([a, b], key));
            Decrypt(c, E, [first, second], Encrypt(c, E, [first, second], p)) == Some(p.(channel := 0))
  {
    var first := ChannelKey(0, [b, a], key, ChannelHash([b, a], key));
    var second := ChannelKey(1, [a, b], key, ChannelHash([a, b], key));
    var cs := [first, second];
    hide FindIndex, ChannelHash, Encrypt, Decrypt, Opens, FirstOpener, Codec.ReturnsData;
    SecondByIndex(first, second);
    assert [b, a] == [b] + [a] && [a, b] == [a] + [b];
    AnagramTakesPackets(c, E, cs, cs, p, 0);
  }

  lemma SecondByIndex(first: ChannelKey, second: ChannelKey)
    requires first.index == 0 && second.index == 1
    ensures FindIndex([first, second], 1) == 1
  {
    assert [first, second][1..] == [second];
  }

  // ----- what is encrypted and decrypted -----

  /** A decoded packet whose channel index stands in the table is encrypted under the first such channel and
      labelled with its hash, unless that channel has no key; every other packet passes as it is. */
  lemma EncryptsExactly(c: Codec, E: BlockCipher, cs: Channels, p: MeshPacket)
    ensures !p.payload.Decoded? || (forall i :: 0 <= i < |cs| ==> cs[i].index != p.channel) ==>
      Encrypt(c, E, cs, p) == p
    ensures p.payload.Decoded? ==>
      forall i :: 0 <= i < |cs| && cs[i].index == p.channel && (forall j :: 0 <= j < i ==> cs[j].index != p.channel) ==>
        Encrypt(c, E, cs, p) ==
          if |cs[i].key| == 0 then p
          else p.(channel := cs[i].hash,
                  payload := Payload.Encrypted(Ctr(E, cs[i].key, p.from, p.id, c.encodeData(p.payload.data))))
  {
    hide Ctr, FindIndex;
    var k := FindIndex(cs, p.channel);
  }

  /** An encrypted packet is decrypted if and only if some channel has its hash, has a key, and gives a
      plaintext that decodes; the first such channel gives content and index. */
  lemma DecryptsExactly(c: Codec, E: BlockCipher, cs: Channels, p: MeshPacket)
    requires p.payload.Encrypted?
    ensures Decrypt(c, E, cs, p).Some? <==>
      exists i :: 0 <= i < |cs| && cs[i].hash == p.channel && |cs[i].key| > 0
        && c.decodeData(Ctr(E, cs[i].key, p.from, p.id, p.payload.bytes)).Some?
    ensures Decrypt(c, E, cs, p).Some? ==>
      exists i :: 0 <= i < |cs| && cs[i].hash == p.channel && |cs[i].key| > 0
        && var d := c.decodeData(Ctr(E, cs[i].key, p.from, p.id, p.payload.bytes));
        && d.Some? && Decrypt(c, E, cs, p) == Some(p.(payload := Payload.Decoded(d.value), channel := cs[i].index))
        && forall j :: 0 <= j < i && cs[j].hash == p.channel && |cs[j].key| > 0 ==>
             c.decodeData(Ctr(E, cs[j].key, p.from, p.id, p.payload.bytes)) == None
  {
    hide Ctr, FirstOpener;
    var k := FirstOpener(c, E, cs, p);
    if k == |cs| {
      forall i | 0 <= i < |cs|
        ensures Opens(c, E, cs[i], p) == None
      {
      }
    } else {
      assert Opens(c, E, cs[k], p).Some?;
    }
  }
}
