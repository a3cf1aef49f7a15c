/** Channel keys and the AES-CTR transform of src/crypto.rs, over an uninterpreted block cipher. */
module Crypto {
  import opened Bytes
  import BE = BigEndian

  type Block = b: seq<byte> | |b| == 16 witness seq(16, _ => 0)
  type AesKey = k: seq<byte> | |k| == 16 || |k| == 32 witness seq(16, _ => 0)

  /** AES-128 and AES-256 as one function of a 16- or 32-byte key and a block. */
  type BlockCipher = (AesKey, Block) -> Block

  // ----- specification: CTR mode of NIST SP 800-38A, section 6.5 -----

  function LittleEndian(x: u32): (s: seq<byte>)
    ensures |s| == 4
  {
    [x % 256, (x / 256) % 256, (x / 65536) % 256, x / 16777216]
  }

  function InitialCounter(from: u32, id: u32): Block {
    LittleEndian(id) + [0, 0, 0, 0] + LittleEndian(from) + [0, 0, 0, 0]
  }

  /** The k-th counter block: the initial one plus k, as 128-bit big-endian numbers. */
  function CounterBlock(from: u32, id: u32, k: nat): Block {
    BE.Digits(BE.Value(InitialCounter(from, id)) + k, 16)
  }

  function EncryptBlock(E: BlockCipher, key: seq<byte>, block: Block): Block
    requires |key| >= 16
  {
    if |key| >= 32 then E(key[..32], block) else E(key[..16], block)
  }

  function KeystreamBlock(E: BlockCipher, key: seq<byte>, from: u32, id: u32, k: nat): Block
    requires |key| >= 16
  {
    EncryptBlock(E, key, CounterBlock(from, id, k))
  }

  function KeystreamByte(E: BlockCipher, key: seq<byte>, from: u32, id: u32, i: nat): byte
    requires |key| >= 16
  {
    KeystreamBlock(E, key, from, id, i / 16)[i % 16]
  }

  function Ctr(E: BlockCipher, key: seq<byte>, from: u32, id: u32, data: seq<byte>): (out: seq<byte>) {
    if |key| < 16 then data
    else seq(|data|, i requires 0 <= i < |data| => Xor(data[i], KeystreamByte(E, key, from, id, i)))
  }

  // ----- the code -----

  method AesCtrTransform(E: BlockCipher, key: seq<byte>, from: u32, id: u32, data: seq<byte>)
    returns (output: seq<byte>)
    ensures output == Ctr(E, key, from, id, data)
  {
    if |key| < 16 {
      return data;
    }
    var counter := NewCounter(from, id);
    CounterStart(from, id);
    output := XorKeystream(E, key, counter, from, id, data);
  }

  method XorKeystream(E: BlockCipher, key: seq<byte>, counter: array<byte>,
                      ghost from: u32, ghost id: u32, data: seq<byte>)
    returns (output: seq<byte>)
    requires |key| >= 16 && counter[..] == CounterBlock(from, id, 0)
    modifies counter
    ensures output == Ctr(E, key, from, id, data)
  {
    hide Ctr, CounterBlock, KeystreamBlock, Xor;
    output := [];
    var keystreamPos := 16;  // force generation on the first byte
    var keystreamBlock := ZERO_BLOCK;
    ghost var blocks: nat := 0;
    CtrLength(E, key, from, id, data);
    for i := 0 to |data|
      invariant keystreamPos <= 16 && i + 16 == 16 * blocks + keystreamPos
      invariant counter[..] == CounterBlock(from, id, blocks)
      invariant keystreamPos < 16 ==> 0 < blocks
      invariant 0 < blocks ==> keystreamBlock == KeystreamBlock(E, key, from, id, blocks - 1)
      invariant output == Ctr(E, key, from, id, data)[..i]
    {
      if keystreamPos == 16 {
        keystreamBlock := NextKeystreamBlock(E, key, counter, from, id, blocks);
        keystreamPos := 0;
        blocks := blocks + 1;
      }
      CtrAt(E, key, from, id, data, blocks - 1, keystreamPos);
      output := output + [Xor(data[i], keystreamBlock[keystreamPos])];
      keystreamPos := keystreamPos + 1;
    }
  }

  const ZERO_BLOCK: Block := seq(16, _ => 0)

  /** Encrypt the counter, then step it. */
  method NextKeystreamBlock(E: BlockCipher, key: seq<byte>, counter: array<byte>,
                            ghost from: u32, ghost id: u32, ghost k: nat)
    returns (block: Block)
    requires |key| >= 16 && counter[..] == CounterBlock(from, id, k)
    modifies counter
    ensures block == KeystreamBlock(E, key, from, id, k)
    ensures counter[..] == CounterBlock(from, id, k + 1)
  {
    block := EncryptBlock(E, key, counter[..]);
    IncrementCounter(counter);
    CounterNext(from, id, k);
  }

  /** [id, 0, from, 0], each a little-endian 32-bit field. */
  method NewCounter(from: u32, id: u32) returns (counter: array<byte>)
    ensures fresh(counter) && counter[..] == InitialCounter(from, id)
  {
    counter := new byte[16](_ => 0);
    var id4, from4 := LittleEndian(id), LittleEndian(from);
    forall j | 0 <= j < 4 {
      counter[j] := id4[j];
    }
    forall j | 0 <= j < 4 {
      counter[8 + j] := from4[j];
    }
  }

  lemma CtrAt(E: BlockCipher, key: seq<byte>, from: u32, id: u32, data: seq<byte>, block: nat, pos: nat)
    requires |key| >= 16 && pos < 16 && 16 * block + pos < |data|
    ensures var i := 16 * block + pos;
            && |Ctr(E, key, from, id, data)| == |data|
            && Ctr(E, key, from, id, data)[i] == Xor(data[i], KeystreamBlock(E, key, from, id, block)[pos])
  {
    hide KeystreamBlock, Xor;
    var i := 16 * block + pos;
    assert i / 16 == block && i % 16 == pos;
  }

  /** The carry loop of the transform. */
  method IncrementCounter(counter: array<byte>)
    modifies counter
    ensures counter[..] == BE.Succ(old(counter[..]))
  {
    ghost var s := counter[..];
    var j := counter.Length;
    while j > 0
      invariant 0 <= j <= counter.Length
      invariant BE.Carried(s, counter[..], counter.Length - j)
    {
      j := j - 1;
      ghost var t := counter[..];
      counter[j] := (counter[j] as int + 1) % 256;
      if counter[j] != 0 {
        BE.CarryStopped(s, t, j);
        assert counter[..] == t[j := s[j] + 1];
        return;
      }
    }
    BE.CarryWrapped(s, counter[..]);
  }

  lemma CounterStart(from: u32, id: u32)
    ensures CounterBlock(from, id, 0) == InitialCounter(from, id)
  {
    BE.DigitsOfValue(InitialCounter(from, id));
  }

  lemma CounterNext(from: u32, id: u32, k: nat)
    ensures BE.Succ(CounterBlock(from, id, k)) == CounterBlock(from, id, k + 1)
  {
    hide BE.Value, BE.Digits, BE.Succ, InitialCounter;
    BE.SuccOfDigits(BE.Value(InitialCounter(from, id)) + k, 16);
  }

  // ----- properties -----

  lemma CtrLength(E: BlockCipher, key: seq<byte>, from: u32, id: u32, data: seq<byte>)
    ensures |Ctr(E, key, from, id, data)| == |data|
  {
  }

  /** A prefix of the data becomes the same prefix of the output. */
  lemma CtrKeepsPrefixes(E: BlockCipher, key: seq<byte>, from: u32, id: u32, data: seq<byte>, n: nat)
    requires n <= |data|
    ensures Ctr(E, key, from, id, data[..n]) == Ctr(E, key, from, id, data)[..n]
  {
  }

  /** Decryption is the same transform, for every key length and every block cipher. */
  lemma CtrInverts(E: BlockCipher, key: seq<byte>, from: u32, id: u32, data: seq<byte>)
    ensures Ctr(E, key, from, id, Ctr(E, key, from, id, data)) == data
  {
    if |key| >= 16 {
      var out := Ctr(E, key, from, id, data);
      forall i | 0 <= i < |data|
        ensures Ctr(E, key, from, id, out)[i] == data[i]
      {
        XorCancels(data[i], KeystreamByte(E, key, from, id, i));
      }
    }
  }

  lemma LittleEndianInjective(x: u32, y: u32)
    requires LittleEndian(x) == LittleEndian(y)
    ensures x == y
  {
    var a, b := LittleEndian(x), LittleEndian(y);
    assert a[0] == b[0] && a[1] == b[1] && a[2] == b[2] && a[3] == b[3];
    FourDigits(x);
    FourDigits(y);
  }

  lemma FourDigits(x: u32)
    ensures x == x % 256 + 256 * ((x / 256) % 256) + 65536 * ((x / 65536) % 256) + 16777216 * (x / 16777216)
  {
    assert x / 65536 == (x / 256) / 256 && x / 16777216 == (x / 65536) / 256;
  }

  const BLOCKS: nat := 0x1_0000_0000

  /** The standard incrementing function: counter block k is the initial one plus k modulo 2^128. */
  lemma CounterBlockValue(from: u32, id: u32, k: nat)
    ensures BE.Value(CounterBlock(from, id, k))
         == (BE.Value(InitialCounter(from, id)) + k) % BE.Pow256(16)
  {
    hide BE.Digits, BE.Pow256, BE.Value, InitialCounter;
    BE.ValueOfDigits(BE.Value(InitialCounter(from, id)) + k, 16);
  }

  lemma FourBytes()
    ensures BE.Pow256(4) == BLOCKS
    ensures BE.Digits(0, 4) == [0, 0, 0, 0]
  {
    assert BE.Pow256(2) == 65536;
    assert BE.Digits(0, 2) == [0, 0];
    assert BE.Digits(0, 4) == BE.Digits(0, 3) + [0];
  }

  /** The twelve bytes in front of the moving part of a counter. */
  function CounterTop(from: u32, id: u32): (s: seq<byte>)
    ensures |s| == 12
  {
    LittleEndian(id) + [0, 0, 0, 0] + LittleEndian(from)
  }

  /** While a packet stays below 2^32 blocks, its counter only moves in the last four bytes. */
  lemma CounterBlockSplits(from: u32, id: u32, k: nat)
    requires k < BLOCKS
    ensures CounterBlock(from, id, k) == CounterTop(from, id) + BE.Digits(k, 4)
  {
    hide BE.Value, BE.Digits, BE.Pow256, LittleEndian;
    FourBytes();
    var top := CounterTop(from, id);
    assert InitialCounter(from, id) == top + BE.Digits(0, 4);
    BE.DigitsBelow(top, k, 4);
    BE.DigitsOfValue(top + BE.Digits(k, 4));
  }

  /** Sixteen bytes: the packet id and the sender are little-endian, the block number big-endian. */
  function CounterImage(from: u32, id: u32, k: u32): Block {
    [id % 256, id / 256 % 256, id / 65536 % 256, id / 16777216, 0, 0, 0, 0,
     from % 256, from / 256 % 256, from / 65536 % 256, from / 16777216,
     k / 16777216, k / 65536 % 256, k / 256 % 256, k % 256]
  }

  /** The counter block byte by byte, for the first 2^32 blocks. */
  lemma CounterBytes(from: u32, id: u32, k: u32)
    ensures CounterBlock(from, id, k) == CounterImage(from, id, k)
  {
    hide CounterBlock, BE.Digits;
    CounterBlockSplits(from, id, k);
    FourDigitsOf(k);
  }

  lemma FourDigitsOf(k: nat)
    requires k < 0x1_0000_0000
    ensures BE.Digits(k, 4) == [k / 16777216, k / 65536 % 256, k / 256 % 256, k % 256]
  {
    assert k / 65536 == (k / 256) / 256 && k / 16777216 == (k / 65536) / 256;
    var a, b, c := k / 256, k / 65536, k / 16777216;
    assert BE.Digits(c, 1) == BE.Digits(c / 256, 0) + [c % 256] == [c];
    assert BE.Digits(b, 2) == BE.Digits(c, 1) + [b % 256];
    assert BE.Digits(a, 3) == BE.Digits(b, 2) + [a % 256];
    assert BE.Digits(k, 4) == BE.Digits(a, 3) + [k % 256];
  }

  /** The part of a key that is used: its first 32 bytes, or 16 if it is shorter. */
  function UsedKey(key: seq<byte>): AesKey
    requires |key| >= 16
  {
    if |key| < 32 then key[..16] else key[..32]
  }

  /** What becomes of each byte: keys of under 16 bytes pass it through, others encrypt the counter block of
      its position. */
  lemma CtrBytes(E: BlockCipher, key: seq<byte>, from: u32, id: u32, data: seq<byte>, i: nat)
    requires i < |data| && i / 16 < 0x1_0000_0000
    ensures |Ctr(E, key, from, id, data)| == |data|
    ensures |key| < 16 ==> Ctr(E, key, from, id, data)[i] == data[i]
    ensures |key| >= 16 ==>
      Ctr(E, key, from, id, data)[i] == Xor(data[i], E(UsedKey(key), CounterImage(from, id, i / 16))[i % 16])
  {
    hide CounterBlock, CounterImage, Xor;
    CounterBytes(from, id, i / 16);
  }

  lemma CounterTopInjective(f1: u32, id1: u32, f2: u32, id2: u32)
    requires CounterTop(f1, id1) == CounterTop(f2, id2)
    ensures f1 == f2 && id1 == id2
  {
    hide LittleEndian;
    var t1, t2 := CounterTop(f1, id1), CounterTop(f2, id2);
    assert t1[..4] == LittleEndian(id1) && t2[..4] == LittleEndian(id2);
    assert t1[8..] == LittleEndian(f1) && t2[8..] == LittleEndian(f2);
    LittleEndianInjective(id1, id2);
    LittleEndianInjective(f1, f2);
  }

  /** Within 2^32 blocks a packet, two counter blocks are equal only for the same sender, the same
      packet id and the same position: no keystream block is used twice. */
  lemma CounterBlocksNeverRepeat(f1: u32, id1: u32, k1: nat, f2: u32, id2: u32, k2: nat)
    requires k1 < BLOCKS && k2 < BLOCKS
    ensures CounterBlock(f1, id1, k1) == CounterBlock(f2, id2, k2) <==> f1 == f2 && id1 == id2 && k1 == k2
  {
    hide BE.Digits, BE.Pow256, BE.Value, CounterBlock, CounterTop;
    var b1, b2 := CounterBlock(f1, id1, k1), CounterBlock(f2, id2, k2);
    CounterBlockSplits(f1, id1, k1);
    CounterBlockSplits(f2, id2, k2);
    if b1 == b2 {
      assert b1[..12] == CounterTop(f1, id1) && b2[..12] == CounterTop(f2, id2);
      assert b1[12..] == BE.Digits(k1, 4) && b2[12..] == BE.Digits(k2, 4);
      CounterTopInjective(f1, id1, f2, id2);
      FourBytes();
      BE.ValueOfFittingDigits(k1, 4);
      BE.ValueOfFittingDigits(k2, 4);
    }
  }

  /** 2^32 blocks is the exact limit: the next block is the first one of another sender's packet. */
  lemma CounterBlocksRepeatAtTheLimit(from: u32, id: u32)
    requires from < 0xFF00_0000
    ensures CounterBlock(from, id, BLOCKS) == CounterBlock(from + 0x100_0000, id, 0)
  {
    hide BE.Digits;
    FourBytes();
    var low := BE.Digits(0, 4);
    var t, u := CounterTop(from, id), CounterTop(from + 0x100_0000, id);
    NextSender(from, id);
    BE.ValueConcat(t, low);
    BE.ValueConcat(u, low);
    assert InitialCounter(from, id) == t + low;
    assert InitialCounter(from + 0x100_0000, id) == u + low;
  }

  lemma NextSender(from: u32, id: u32)
    requires from < 0xFF00_0000
    ensures BE.Value(CounterTop(from + 0x100_0000, id)) == BE.Value(CounterTop(from, id)) + 1
  {
    var y := from + 0x100_0000;
    var head := LittleEndian(id) + [0, 0, 0, 0];
    NextSenderBytes(from);
    var low := LittleEndian(from)[..3];
    assert CounterTop(from, id)[..11] == head + low && CounterTop(y, id)[..11] == head + low;
  }

  lemma NextSenderBytes(from: u32)
    requires from < 0xFF00_0000
    ensures var a, b := LittleEndian(from), LittleEndian(from + 0x100_0000);
            a[..3] == b[..3] && b[3] == a[3] + 1
  {
    var y := from + 0x100_0000;
    assert y / 256 == from / 256 + 65536;
    assert y / 65536 == from / 65536 + 256;
    assert y / 16777216 == from / 16777216 + 1;
    SameLowByte(from, 65536);
    SameLowByte(from / 256, 256);
    SameLowByte(from / 65536, 1);
  }

  lemma SameLowByte(q: nat, m: nat)
    ensures (q + 256 * m) % 256 == q % 256
  {
  }
}
