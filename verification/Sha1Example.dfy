/** The first of the examples at the head of user/sha1.c, the digest of "abc", worked out round by round. */
module Sha1Example {
  import opened Sha1Standard

  /** The bytes of "abc", and its one block after the padding. */
  const ABC: seq<Byte> := [0x61, 0x62, 0x63]
  const BLOCK: seq<Word> := [0x61626380, 0, 0, 0, 0, 0, 0, 0, 0, 0, 0, 0, 0, 0, 0, 24]

  lemma Words0()
    ensures Schedule(BLOCK, 0) == 0x61626380 && Schedule(BLOCK, 15) == 24
    ensures forall t :: 1 <= t < 15 ==> Schedule(BLOCK, t) == 0
  {
  }

  lemma Words16()
    ensures Schedule(BLOCK, 16) == 0xc2c4c700 && Schedule(BLOCK, 17) == 0x00000000
    ensures Schedule(BLOCK, 18) == 0x00000030 && Schedule(BLOCK, 19) == 0x85898e01
    ensures Schedule(BLOCK, 20) == 0x00000000 && Schedule(BLOCK, 21) == 0x00000060
    ensures Schedule(BLOCK, 22) == 0x0b131c03 && Schedule(BLOCK, 23) == 0x00000030
    ensures Schedule(BLOCK, 24) == 0x85898ec1 && Schedule(BLOCK, 25) == 0x16263806
    ensures Schedule(BLOCK, 26) == 0x00000000 && Schedule(BLOCK, 27) == 0x00000180
    ensures Schedule(BLOCK, 28) == 0x2c4c700c && Schedule(BLOCK, 29) == 0x000000f0
    ensures Schedule(BLOCK, 30) == 0x93afb507 && Schedule(BLOCK, 31) == 0x5898e048
  {
    Words0();
  }

  lemma Words32()
    ensures Schedule(BLOCK, 32) == 0x8e9a9202 && Schedule(BLOCK, 33) == 0x00000600
    ensures Schedule(BLOCK, 34) == 0xb131c0f0 && Schedule(BLOCK, 35) == 0x16263bc6
    ensures Schedule(BLOCK, 36) == 0x4ebed41e && Schedule(BLOCK, 37) == 0x626380a1
    ensures Schedule(BLOCK, 38) == 0x16263806 && Schedule(BLOCK, 39) == 0x000018c0
    ensures Schedule(BLOCK, 40) == 0xd2e138c4 && Schedule(BLOCK, 41) == 0x00000f00
    ensures Schedule(BLOCK, 42) == 0x3afb5079 && Schedule(BLOCK, 43) == 0x898e04e5
    ensures Schedule(BLOCK, 44) == 0xe2ba3c2b && Schedule(BLOCK, 45) == 0x000060c0
    ensures Schedule(BLOCK, 46) == 0x053a37cd && Schedule(BLOCK, 47) == 0x74458547
  {
    Words16();
  }

  lemma Words48()
    ensures Schedule(BLOCK, 48) == 0xda9415ed && Schedule(BLOCK, 49) == 0x26380a16
    ensures Schedule(BLOCK, 50) == 0x626383a1 && Schedule(BLOCK, 51) == 0x4ebf54de
    ensures Schedule(BLOCK, 52) == 0x3835b44b && Schedule(BLOCK, 53) == 0x0000f600
    ensures Schedule(BLOCK, 54) == 0x1e84c7a3 && Schedule(BLOCK, 55) == 0x98e04d98
    ensures Schedule(BLOCK, 56) == 0x651d16a0 && Schedule(BLOCK, 57) == 0x62658ca1
    ensures Schedule(BLOCK, 58) == 0x458544d6 && Schedule(BLOCK, 59) == 0x44584cb7
    ensures Schedule(BLOCK, 60) == 0x7ba06619 && Schedule(BLOCK, 61) == 0x6380aea2
    ensures Schedule(BLOCK, 62) == 0x0ae55269 && Schedule(BLOCK, 63) == 0x627b49a1
  {
    Words32();
  }

  lemma Words64()
    ensures Schedule(BLOCK, 64) == 0x7cd45c9d && Schedule(BLOCK, 65) == 0x000f0000
    ensures Schedule(BLOCK, 66) == 0xfb50753a && Schedule(BLOCK, 67) == 0xec6765e8
    ensures Schedule(BLOCK, 68) == 0xba3c2be2 && Schedule(BLOCK, 69) == 0x0060c000
    ensures Schedule(BLOCK, 70) == 0x3a37cd05 && Schedule(BLOCK, 71) == 0x458546f4
    ensures Schedule(BLOCK, 72) == 0xb8599dd6 && Schedule(BLOCK, 73) == 0x380a1a26
    ensures Schedule(BLOCK, 74) == 0x01e02203 && Schedule(BLOCK, 75) == 0xe7cc3456
    ensures Schedule(BLOCK, 76) == 0xe6e60b69 && Schedule(BLOCK, 77) == 0x00f60a00
    ensures Schedule(BLOCK, 78) == 0x5795ef4f && Schedule(BLOCK, 79) == 0x822e0879
  {
    Words48();
  }

  lemma Rounds0()
    ensures Rounds(INITIAL, BLOCK, 0) == INITIAL
  {
  }

  lemma Four(n: nat)
    ensures var v := Rounds(INITIAL, BLOCK, n);
            var v2 := Round(Round(v, n, Schedule(BLOCK, n)), n + 1, Schedule(BLOCK, n + 1));
            Rounds(INITIAL, BLOCK, n + 4)
            == Round(Round(v2, n + 2, Schedule(BLOCK, n + 2)), n + 3, Schedule(BLOCK, n + 3))
  {
    assert Rounds(INITIAL, BLOCK, n + 2) == Round(Rounds(INITIAL, BLOCK, n + 1), n + 1, Schedule(BLOCK, n + 1));
  }

  lemma Rounds16()
    ensures Rounds(INITIAL, BLOCK, 16) == Hash(0x20bdd62f, 0x196bee77, 0x644a3da5, 0x1181ed99, 0x18c623f9)
  {
    hide Schedule;
    hide Rounds;
    Words0();
    Rounds0();
    Four(0);
    assert Rounds(INITIAL, BLOCK, 4) == Hash(0xcdd8e11b, 0xa1390f08, 0x626414db, 0xc045bf0c, 0x59d148c0);
    Four(4);
    assert Rounds(INITIAL, BLOCK, 8) == Hash(0x9e8c07d4, 0x993e30c1, 0x0ff1f290, 0xb3f52677, 0xf3763846);
    Four(8);
    assert Rounds(INITIAL, BLOCK, 12) == Hash(0x63188fe4, 0xfbda9e89, 0x60d47e4a, 0x12dab8ca, 0x27a301f5);
    Four(12);
  }

  lemma Rounds32()
    ensures Rounds(INITIAL, BLOCK, 32) == Hash(0x3b845d33, 0x1267b407, 0x717eebd7, 0xa0dc2d4b, 0xd2aa1365)
  {
    hide Schedule;
    hide Rounds;
    Words16();
    Rounds16();
    Four(16);
    assert Rounds(INITIAL, BLOCK, 20) == Hash(0xfd9e1d7d, 0xdc64901d, 0x20aa99ca, 0xd3a49608, 0xc82f758b);
    Four(20);
    assert Rounds(INITIAL, BLOCK, 24) == Hash(0xd541f12d, 0x21283486, 0x0ce88eff, 0x868dec32, 0x7f67875f);
    Four(24);
    assert Rounds(INITIAL, BLOCK, 28) == Hash(0x4aa84d97, 0xbe35fbd5, 0x12104ee9, 0xb1d59f71, 0x75507c4b);
    Four(28);
  }

  lemma Rounds48()
    ensures Rounds(INITIAL, BLOCK, 48) == Hash(0xbead02ca, 0xa01b846c, 0x8714787c, 0x503ca382, 0xfb86c6ab)
  {
    hide Schedule;
    hide Rounds;
    Words32();
    Rounds32();
    Four(32);
    assert Rounds(INITIAL, BLOCK, 36) == Hash(0xdcbbb0cb, 0x21796ad4, 0x4b03af04, 0x811bea82, 0xcee1174c);
    Four(36);
    assert Rounds(INITIAL, BLOCK, 40) == Hash(0x32de1cba, 0x4c986405, 0xf718e5cf, 0x03d447f6, 0xf72eec32);
    Four(40);
    assert Rounds(INITIAL, BLOCK, 44) == Hash(0xee1b1aaf, 0x7f193dc5, 0x25c28357, 0xff21f7b7, 0x8cb7872e);
    Four(44);
  }

  lemma Rounds64()
    ensures Rounds(INITIAL, BLOCK, 64) == Hash(0x6b61c9e1, 0xb66c020b, 0x9523272c, 0xf5d5b051, 0x8fd4b796)
  {
    hide Schedule;
    hide Rounds;
    Words48();
    Rounds48();
    Four(48);
    assert Rounds(INITIAL, BLOCK, 52) == Hash(0x3847ad66, 0x641db2ce, 0x4481cc71, 0xeebce4cd, 0xafab40b2);
    Four(52);
    assert Rounds(INITIAL, BLOCK, 56) == Hash(0x5e6456af, 0x7b71f76d, 0x09fa7c76, 0x792410db, 0x8e11eb59);
    Four(56);
    assert Rounds(INITIAL, BLOCK, 60) == Hash(0x3f52de5a, 0x09d785fd, 0x3498bfd4, 0xf211824f, 0xd79915ab);
    Four(60);
  }

  lemma Rounds80()
    ensures Rounds(INITIAL, BLOCK, 80) == Hash(0x42541b35, 0x5738d5e1, 0x21834873, 0x681e6df6, 0xd8fdf6ad)
  {
    hide Schedule;
    hide Rounds;
    Words64();
    Rounds64();
    Four(64);
    assert Rounds(INITIAL, BLOCK, 68) == Hash(0x78dd4d2b, 0x0c3df2b4, 0x4405957e, 0x0677e9eb, 0x5ad87278);
    Four(68);
    assert Rounds(INITIAL, BLOCK, 72) == Hash(0x39859de7, 0xc199f8c7, 0x8fc96230, 0x125c24f0, 0xde37534a);
    Four(72);
    assert Rounds(INITIAL, BLOCK, 76) == Hash(0x63f7dab7, 0x5ee76897, 0xc45e4fdb, 0x3b6d0b79, 0xce616779);
    Four(76);
  }

  lemma SmallBytes()
    ensures ByteOf(0) == 0 && ByteOf(24) == 24
    ensures Big(0, 0, 0, 0) == 0 && Big(0, 0, 0, 24) == 24 && Big(0x61, 0x62, 0x63, 0x80) == 0x61626380
  {
  }

  lemma SmallQuotient(p: nat)
    requires 24 < p
    ensures 24 / p == 0
  {
  }

  lemma PowerAbove24(n: nat)
    requires 1 <= n
    ensures 24 < Power256(n)
  {
    assert Power256(n) == 256 * Power256(n - 1);
  }

  lemma LengthOf24(i: nat)
    requires i < 8
    ensures LengthByte(24, i) == if i == 7 then 24 else 0
  {
    hide ByteOf;
    SmallBytes();
    if i < 7 {
      hide Power256;
      PowerAbove24(7 - i);
      SmallQuotient(Power256(7 - i));
    }
  }

  /** The bytes of the block. */
  lemma PaddedBytes()
    ensures Pad(ABC) == ABC + [0x80] + Zeros(52) + LengthBytes(24) && |Pad(ABC)| == 64
    ensures forall i :: 4 <= i < 63 ==> Pad(ABC)[i] == 0
    ensures Pad(ABC)[63] == 24
  {
    hide LengthByte;
    assert Pad(ABC) == ABC + [0x80] + Zeros(52) + LengthBytes(24);
    forall i | 0 <= i < 8
      ensures LengthBytes(24)[i] == if i == 7 then 24 else 0
    {
      LengthOf24(i);
    }
  }

  lemma Parsed()
    ensures Parse(Pad(ABC)) == BLOCK
  {
    hide Pad;
    var b := Pad(ABC);
    PaddedBytes();
    forall i | 0 <= i < 16
      ensures Parse(b)[i] == BLOCK[i]
    {
      hide Big;
      SmallBytes();
      assert b[4 * i..4 * i + 4] == [b[4 * i], b[4 * i + 1], b[4 * i + 2], b[4 * i + 3]];
    }
  }

  lemma AbcHash()
    ensures Sha1(ABC) == Hash(0xa9993e36, 0x4706816a, 0xba3e2571, 0x7850c26c, 0x9cd0d89d)
  {
    hide Schedule;
    hide Rounds;
    hide Parse;
    hide Pad;
    var b := Pad(ABC);
    PaddedBytes();
    Parsed();
    Rounds80();
    assert |b| == 64 && b[..0] == [] && b[0..] == b;
    assert Blocks(b) == Compress(INITIAL, BLOCK);
  }

  /** The digest of "abc" is the one given there. */
  lemma AbcDigest()
    ensures Digest(Sha1(ABC)) == [0xa9, 0x99, 0x3e, 0x36, 0x47, 0x06, 0x81, 0x6a, 0xba, 0x3e,
                                  0x25, 0x71, 0x78, 0x50, 0xc2, 0x6c, 0x9c, 0xd0, 0xd8, 0x9d]
  {
    hide Sha1;
    AbcHash();
    assert |Digest(Sha1(ABC))| == 20;
  }
}
