/** Published values of the Salsa20 core: the quarter round, and the test block of
    section 8 of RFC 7914 one round at a time. */
module SalsaVectors {
  import opened Salsa

  lemma Rotate7(x: bv32)
    ensures Rotate(x, 7) == (x << 7) | (x >> 25)
  {
    assert Rotate(x, 7) == (x << 7) | (x >> 25);
  }

  lemma Rotate9(x: bv32)
    ensures Rotate(x, 9) == (x << 9) | (x >> 23)
  {
    assert Rotate(x, 9) == (x << 9) | (x >> 23);
  }

  lemma Rotate13(x: bv32)
    ensures Rotate(x, 13) == (x << 13) | (x >> 19)
  {
    assert Rotate(x, 13) == (x << 13) | (x >> 19);
  }

  lemma Rotate18(x: bv32)
    ensures Rotate(x, 18) == (x << 18) | (x >> 14)
  {
    assert Rotate(x, 18) == (x << 18) | (x >> 14);
  }

  lemma RotationsWrittenOut()
    ensures forall x: bv32 :: Rotate(x, 7) == (x << 7) | (x >> 25)
    ensures forall x: bv32 :: Rotate(x, 9) == (x << 9) | (x >> 23)
    ensures forall x: bv32 :: Rotate(x, 13) == (x << 13) | (x >> 19)
    ensures forall x: bv32 :: Rotate(x, 18) == (x << 18) | (x >> 14)
  {
    hide Rotate;
    forall x: bv32
      ensures Rotate(x, 7) == (x << 7) | (x >> 25)
      ensures Rotate(x, 9) == (x << 9) | (x >> 23)
      ensures Rotate(x, 13) == (x << 13) | (x >> 19)
      ensures Rotate(x, 18) == (x << 18) | (x >> 14)
    {
      Rotate7(x);
      Rotate9(x);
      Rotate13(x);
      Rotate18(x);
    }
  }

  /** The quarter round. */
  lemma QuarterOfOne()
    ensures Quarter(1, 0, 0, 0) == Four(0x08008145, 0x00000080, 0x00010200, 0x20500000)
  {
    hide Rotate;
    RotationsWrittenOut();
  }

  const B0 := Block(0x219a877e, 0x86c93e4f, 0xe640a97c, 0x268f7141, 0x5b55eeba, 0xb5c1618c, 0x1146f80d, 0x1d3bcd6d,
                   0x19f324ee, 0x853d9bdf, 0x4b1e1214, 0x32aac55a, 0x291d0276, 0x2948c709, 0x8dc6ebed, 0x5ec2b8b8)

  const B1 := Block(0x08857f83, 0xbc4dffa4, 0x225a0768, 0x90307809, 0x0091149f, 0xc3e54d59, 0xd113843e, 0xfb5a4eb0,
                   0x4ecb1eaa, 0xc0727641, 0x6585dfa2, 0x6a7df42b, 0xaf742b9d, 0x4ee75de5, 0xbf43fb43, 0x55af2fd9)

  lemma B1Is()
    ensures ColumnRound(B0) == B1
  {
    hide Rotate;
    RotationsWrittenOut();
  }

  const B2 := Block(0x482665b1, 0xe6b639e8, 0x5528d0b6, 0x7163bf72, 0x93580e01, 0x0c50b5fd, 0xea23785c, 0xead125ec,
                   0xf701a95d, 0xd590a7ea, 0x209aedeb, 0x965705b9, 0xd6e1a597, 0x6f4dbdbc, 0x53299386, 0x10a42604)

  lemma B2Is()
    ensures RowRound(B1) == B2
  {
    hide Rotate;
    RotationsWrittenOut();
  }

  const B3 := Block(0xb4cf7248, 0xb8e79720, 0x3e130cef, 0x0cf661a1, 0x175daa0e, 0xde3bd4f1, 0x5dbd3119, 0xdfde6fd7,
                   0xff1ed7e2, 0x56e75513, 0xd8b882ab, 0x0c781823, 0x46dfa758, 0x1f5b9d7a, 0x0c1ab003, 0x0f4f975e)

  lemma B3Is()
    ensures ColumnRound(B2) == B3
  {
    hide Rotate;
    RotationsWrittenOut();
  }

  const B4 := Block(0xe9e67835, 0x5a0e63c0, 0x85bf1cf2, 0xbce03a58, 0x95e02c9d, 0x10a33116, 0x91024ee3, 0xa399c709,
                   0x678d68da, 0x70e69077, 0x3dffe364, 0xc393c734, 0xf3fc17d5, 0x8805fb7c, 0x4e709f83, 0x64b0ce84)

  lemma B4Is()
    ensures RowRound(B3) == B4
  {
    hide Rotate;
    RotationsWrittenOut();
  }

  const B5 := Block(0xfbef1227, 0x12c789d1, 0x56808ce8, 0x9eaae64c, 0x64a829f3, 0x43dbdd85, 0xd82bca5e, 0x14f0670f,
                   0x7ac93847, 0x282cfb42, 0x60e759d5, 0xaa38b147, 0xdfbb4c3b, 0x285d4b0d, 0xcf69bc64, 0x05ea3220)

  lemma B5Is()
    ensures ColumnRound(B4) == B5
  {
    hide Rotate;
    RotationsWrittenOut();
  }

  const B6 := Block(0x28f2a180, 0x5e3bb01c, 0x03040a5c, 0x69e5ea6b, 0x997f9f3c, 0x1c650ad9, 0x9a28760a, 0x1c5778b3,
                   0x89e18946, 0x5055ce7c, 0x3fec3108, 0x20123a83, 0x764c0e51, 0x44dda9f5, 0xf8616b01, 0x5632c6dc)

  lemma B6Is()
    ensures RowRound(B5) == B6
  {
    hide Rotate;
    RotationsWrittenOut();
  }

  const B7 := Block(0xb0e98b83, 0x346a63e9, 0x3d22e238, 0x4b6545d0, 0x062877f3, 0x1abe5aed, 0x22bcf3e0, 0x2c4e21f0,
                   0xbfd36f18, 0x0008b4c1, 0x678d4e77, 0x4cea3475, 0x0aad76ee, 0x9fa29dcd, 0xf232e26c, 0x0fa7223d)

  lemma B7Is()
    ensures ColumnRound(B6) == B7
  {
    hide Rotate;
    RotationsWrittenOut();
  }

  const B8 := Block(0x7aea9826, 0x1302ca17, 0xe589d7bf, 0xdf5f9ac1, 0x25cb5c4a, 0xc7729c16, 0x51d583f0, 0x0bf39b29,
                   0x4e3e14c6, 0x37a92e04, 0x6ca759ea, 0x87eba846, 0xe7af226e, 0x332bca23, 0xafa0c137, 0x22cca90f)

  lemma B8Is()
    ensures RowRound(B7) == B8
  {
    hide Rotate;
    RotationsWrittenOut();
  }

  /** Eight rounds of the test block. */
  lemma EightRounds()
    ensures Core(B0, 8)
         == Block(0x9c851fa4, 0x99cc0866, 0xcbca813b, 0x05ef0c02, 0x81214b04, 0x7d33fda2, 0x631c7bfd, 0x292f6896,
                  0x683139b4, 0xbce6c9e3, 0xb7c56bfe, 0xba966da0, 0x10cc24e4, 0x5c74912c, 0x3d67ad24, 0x818f61c7)
  {
    hide ColumnRound, RowRound;
    B1Is();
    B2Is();
    B3Is();
    B4Is();
    B5Is();
    B6Is();
    B7Is();
    B8Is();
    assert DoubleRounds(B8, 8, 8) == B8;
    assert DoubleRounds(B6, 6, 8) == B8;
    assert DoubleRounds(B4, 4, 8) == B8;
    assert DoubleRounds(B2, 2, 8) == B8;
  }
}
