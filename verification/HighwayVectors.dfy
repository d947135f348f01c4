/** The published values of HighwayHash: the messages are the bytes 0, 1, 2 and so on,
    of a size for each way through the code. The states in between are written out, and
    each step from one to the next is proved on its own. */
module HighwayVectors {
  import opened HighwayLanes
  import opened HighwaySse41
  import opened HighwayCat

  // Operations on words written out, so that they can be computed on constants.

  lemma PlusIs(x: bv64, y: bv64)
    ensures Plus64(x, y) == x + y
  {
  }

  lemma LowIs(x: bv64)
    ensures Low32(x) == x & 0xFFFF_FFFF
  {
  }

  lemma HighIs(x: bv64)
    ensures High32(x) == x >> 32
  {
  }

  lemma ByteIs(x: bv64)
    ensures Byte(x, 0) == x & 0xFF && Byte(x, 1) == (x >> 8) & 0xFF
    ensures Byte(x, 2) == (x >> 16) & 0xFF && Byte(x, 3) == (x >> 24) & 0xFF
    ensures Byte(x, 4) == (x >> 32) & 0xFF && Byte(x, 5) == (x >> 40) & 0xFF
    ensures Byte(x, 6) == (x >> 48) & 0xFF && Byte(x, 7) == x >> 56
  {
  }

  lemma LeftIs(x: bv64)
    ensures Left(x, 8) == x << 8 && Left(x, 16) == x << 16 && Left(x, 24) == x << 24 && Left(x, 32) == x << 32
    ensures Left(x, 40) == x << 40 && Left(x, 48) == x << 48 && Left(x, 56) == x << 56
  {
  }

  lemma ShiftsWrittenOut()
    ensures forall x: bv64 :: Byte(x, 0) == x & 0xFF
    ensures forall x: bv64 :: Byte(x, 1) == (x >> 8) & 0xFF
    ensures forall x: bv64 :: Byte(x, 2) == (x >> 16) & 0xFF
    ensures forall x: bv64 :: Byte(x, 3) == (x >> 24) & 0xFF
    ensures forall x: bv64 :: Byte(x, 4) == (x >> 32) & 0xFF
    ensures forall x: bv64 :: Byte(x, 5) == (x >> 40) & 0xFF
    ensures forall x: bv64 :: Byte(x, 6) == (x >> 48) & 0xFF
    ensures forall x: bv64 :: Byte(x, 7) == x >> 56
    ensures forall x: bv64 :: Left(x, 8) == x << 8
    ensures forall x: bv64 :: Left(x, 16) == x << 16
    ensures forall x: bv64 :: Left(x, 24) == x << 24
    ensures forall x: bv64 :: Left(x, 32) == x << 32
    ensures forall x: bv64 :: Left(x, 40) == x << 40
    ensures forall x: bv64 :: Left(x, 48) == x << 48
    ensures forall x: bv64 :: Left(x, 56) == x << 56
  {
    hide *;
    forall x: bv64
      ensures Byte(x, 0) == x & 0xFF
      ensures Byte(x, 1) == (x >> 8) & 0xFF
      ensures Byte(x, 2) == (x >> 16) & 0xFF
      ensures Byte(x, 3) == (x >> 24) & 0xFF
      ensures Byte(x, 4) == (x >> 32) & 0xFF
      ensures Byte(x, 5) == (x >> 40) & 0xFF
      ensures Byte(x, 6) == (x >> 48) & 0xFF
      ensures Byte(x, 7) == x >> 56
      ensures Left(x, 8) == x << 8
      ensures Left(x, 16) == x << 16
      ensures Left(x, 24) == x << 24
      ensures Left(x, 32) == x << 32
      ensures Left(x, 40) == x << 40
      ensures Left(x, 48) == x << 48
      ensures Left(x, 56) == x << 56
    {
      ByteIs(x);
      LeftIs(x);
    }
  }

  /** A packet in four parts. */
  lemma LanesAre(a: seq<bv8>, b: seq<bv8>, c: seq<bv8>, d: seq<bv8>)
    requires |a| == |b| == |c| == |d| == 8
    ensures LanesOf(a + b + c + d) == Lanes(Little64(a), Little64(b), Little64(c), Little64(d))
  {
    hide Little64;
    var s := a + b + c + d;
    assert s[..8] == a && s[8..16] == b && s[16..24] == c && s[24..] == d;
  }

  /** The factors of the two products of a lane in `Mix`. */
  lemma Factors(v0: bv64, v1: bv64, mul0: bv64, mul1: bv64, packet: bv64)
    ensures var x, y := Plus64(Plus64(v1, packet), mul0), Plus64(v0, mul1);
      && Plus64(v1, packet) == v1 + packet && x == Plus64(v1, packet) + mul0 && y == v0 + mul1
      && Low32(x) == x & 0xFFFF_FFFF && High32(v0) == v0 >> 32
      && Low32(y) == y & 0xFFFF_FFFF && High32(x) == x >> 32
  {
    hide *;
    PlusIs(v1, packet);
    PlusIs(Plus64(v1, packet), mul0);
    PlusIs(v0, mul1);
    LowIs(Plus64(Plus64(v1, packet), mul0));
    LowIs(Plus64(v0, mul1));
    HighIs(v0);
    HighIs(Plus64(Plus64(v1, packet), mul0));
  }

  const KEY := Lanes(0x0706050403020100, 0x0f0e0d0c0b0a0908, 0x1716151413121110, 0x1f1e1d1c1b1a1918)

  const START := HHState(Lanes(0xdce0d0d1fd4ecf2f, 0xab07352e229538d8, 0x040f9f3a10626254, 0x3b2177949eb911cb),
                       Lanes(0x38d19f10cc08f097, 0xcba6f861baff8780, 0xad4677df23ff1978, 0x5e3238fe27ce0e6b),
                       Lanes(0xdbe6d5d5fe4cce2f, 0xa4093822299f31d0, 0x13198a2e03707344, 0x243f6a8885a308d3),
                       Lanes(0x3bd39e10cb0ef593, 0xc0acf169b5f18a8c, 0xbe5466cf34e90c6c, 0x452821e638d01377))

  lemma StartIs()
    ensures Start(KEY) == START
  {
  }

  // No bytes: only the finalization.

  const M0: seq<bv8> := []

  lemma Absorbed0()
    ensures Absorb(KEY, M0) == START
  {
    StartIs();
  }

  const S0P1 := HHState(Lanes(0x18c2cd4c9fc31490, 0x919840c81b46fd83, 0x50096310169bcdc4, 0x3db647c7b401629a),
                      Lanes(0xb5abebd39c29269f, 0x26ed054c60067cff, 0x81ec9ef367ec24a3, 0xf5a0e5c19f795d20),
                      Lanes(0x69f28800e36d702f, 0xb13f7da0097ccd28, 0x13080ef490e2b7b6, 0x305020f94b5d6aa3),
                      Lanes(0x26d9117ae03f7467, 0xcc9c97629e0b9950, 0x8d0c64632a0d2fac, 0xcfd90a2279a59809))

  lemma S0P1Is()
    ensures PermuteAndMix(START) == S0P1
  {
    hide Byte, Left;
    ShiftsWrittenOut();
    Factors(0xdce0d0d1fd4ecf2f, 0x38d19f10cc08f097, 0xdbe6d5d5fe4cce2f, 0x3bd39e10cb0ef593, 0x10626254040f9f3a);
    Factors(0xab07352e229538d8, 0xcba6f861baff8780, 0xa4093822299f31d0, 0xc0acf169b5f18a8c, 0x9eb911cb3b217794);
    Factors(0x040f9f3a10626254, 0xad4677df23ff1978, 0x13198a2e03707344, 0xbe5466cf34e90c6c, 0xfd4ecf2fdce0d0d1);
    Factors(0x3b2177949eb911cb, 0x5e3238fe27ce0e6b, 0x243f6a8885a308d3, 0x452821e638d01377, 0x229538d8ab07352e);
  }

  const S0P2 := HHState(Lanes(0x1e28d7f4c1a20fc6, 0x952312bc9e8c2f7a, 0x825770ac033a3b81, 0x421b08f23216731f),
                      Lanes(0xfccf50bca742b69f, 0xaaa80db5b9c6868c, 0xb5f9fd9381cc9ba8, 0xc3575bb18485b4bd),
                      Lanes(0x7de675280bbd83c7, 0xee246d8775b94cd8, 0x1676271a6460dee6, 0x2daf2e25fcdd5bae),
                      Lanes(0x3dc4bb3928017dcf, 0xa9e6f34557372822, 0x805cd9056058832c, 0xc47868c998a6a773))

  lemma S0P2Is()
    ensures PermuteAndMix(S0P1) == S0P2
  {
    hide Byte, Left;
    ShiftsWrittenOut();
    Factors(0x18c2cd4c9fc31490, 0xb5abebd39c29269f, 0x69f28800e36d702f, 0x26d9117ae03f7467, 0x169bcdc450096310);
    Factors(0x919840c81b46fd83, 0x26ed054c60067cff, 0xb13f7da0097ccd28, 0xcc9c97629e0b9950, 0xb401629a3db647c7);
    Factors(0x50096310169bcdc4, 0x81ec9ef367ec24a3, 0x13080ef490e2b7b6, 0x8d0c64632a0d2fac, 0x9fc3149018c2cd4c);
    Factors(0x3db647c7b401629a, 0xf5a0e5c19f795d20, 0x305020f94b5d6aa3, 0xcfd90a2279a59809, 0x1b46fd83919840c8);
  }

  const S0P3 := HHState(Lanes(0x6eb83f0feafae9ca, 0xbc60f6dee45dbe0d, 0x85439c4397e910b1, 0x94ba83df84438ea8),
                      Lanes(0x48aceac6755289fc, 0x38f0a71b67f7ec3a, 0x3fa6452ea1403219, 0x153afce099c966ab),
                      Lanes(0x7baebd9644b6a8ef, 0xac0adf3d0b4097f0, 0x1443763ed82691be, 0x287fdbdac3de2970),
                      Lanes(0x4f2b5d841f668391, 0x6b230d2d0a69ac32, 0xb71ea3792b3b0948, 0xb5cbbcbdd6aca3b7))

  lemma S0P3Is()
    ensures PermuteAndMix(S0P2) == S0P3
  {
    hide Byte, Left;
    ShiftsWrittenOut();
    Factors(0x1e28d7f4c1a20fc6, 0xfccf50bca742b69f, 0x7de675280bbd83c7, 0x3dc4bb3928017dcf, 0x033a3b81825770ac);
    Factors(0x952312bc9e8c2f7a, 0xaaa80db5b9c6868c, 0xee246d8775b94cd8, 0xa9e6f34557372822, 0x3216731f421b08f2);
    Factors(0x825770ac033a3b81, 0xb5f9fd9381cc9ba8, 0x1676271a6460dee6, 0x805cd9056058832c, 0xc1a20fc61e28d7f4);
    Factors(0x421b08f23216731f, 0xc3575bb18485b4bd, 0x2daf2e25fcdd5bae, 0xc47868c998a6a773, 0x9e8c2f7a952312bc);
  }

  const S0P4 := HHState(Lanes(0xec4d6bd3c3ad6e9a, 0x838d481404ba7846, 0x228441d56843e3e1, 0x89802523f0f86979),
                      Lanes(0xf6c8279baaf9e3f1, 0x5585627950addb0d, 0x206e88b82962264e, 0x44921b3240015ce9),
                      Lanes(0x60ce32440d3add5d, 0xa9d3a38906990a3e, 0x6c961c703e357b8c, 0x27603e79ccb6d497),
                      Lanes(0x4c96912aa6e03e6b, 0x0909ac134c96390d, 0x98efab188a781837, 0xb9d71e78adaf9520))

  lemma S0P4Is()
    ensures PermuteAndMix(S0P3) == S0P4
  {
    hide Byte, Left;
    ShiftsWrittenOut();
    Factors(0x6eb83f0feafae9ca, 0x48aceac6755289fc, 0x7baebd9644b6a8ef, 0x4f2b5d841f668391, 0x97e910b185439c43);
    Factors(0xbc60f6dee45dbe0d, 0x38f0a71b67f7ec3a, 0xac0adf3d0b4097f0, 0x6b230d2d0a69ac32, 0x84438ea894ba83df);
    Factors(0x85439c4397e910b1, 0x3fa6452ea1403219, 0x1443763ed82691be, 0xb71ea3792b3b0948, 0xeafae9ca6eb83f0f);
    Factors(0x94ba83df84438ea8, 0x153afce099c966ab, 0x287fdbdac3de2970, 0xb5cbbcbdd6aca3b7, 0xe45dbe0dbc60f6de);
  }

  const S0P5 := HHState(Lanes(0x5cd4004fa84728df, 0x4c05ce31c1187233, 0x68e3fa9a06a1ee6b, 0x93ebf6166fedc229),
                      Lanes(0x9f2665c5db0034cb, 0x4c8543eeaedf5a2f, 0xbc4602af4e8623b3, 0xd8d6b5b587331403),
                      Lanes(0xa92a86eddd6eeb84, 0xda5244c99588caa6, 0x67d9df0ec374367d, 0x6a1d5bc30ea4d7ab),
                      Lanes(0x034c1b451b5dcaab, 0x455c283db57d16ec, 0xd46c33212beed67f, 0xfc0384278dda0082))

  lemma S0P5Is()
    ensures PermuteAndMix(S0P4) == S0P5
  {
    hide Byte, Left;
    ShiftsWrittenOut();
    Factors(0xec4d6bd3c3ad6e9a, 0xf6c8279baaf9e3f1, 0x60ce32440d3add5d, 0x4c96912aa6e03e6b, 0x6843e3e1228441d5);
    Factors(0x838d481404ba7846, 0x5585627950addb0d, 0xa9d3a38906990a3e, 0x0909ac134c96390d, 0xf0f8697989802523);
    Factors(0x228441d56843e3e1, 0x206e88b82962264e, 0x6c961c703e357b8c, 0x98efab188a781837, 0xc3ad6e9aec4d6bd3);
    Factors(0x89802523f0f86979, 0x44921b3240015ce9, 0x27603e79ccb6d497, 0xb9d71e78adaf9520, 0x04ba7846838d4814);
  }

  const S0P6 := HHState(Lanes(0x49b6365a9ef8d4ab, 0xe04de889c0e9a8f7, 0xbc5487c73d5f7058, 0x5ccee1f781a5608c),
                      Lanes(0xfad3af6c584ba487, 0xe0bd018ac13d75ab, 0x24c37b6bf62e51bc, 0xc098d80cc3838160),
                      Lanes(0xa53ff06590f7a663, 0x9a6f9b16f5d18a5d, 0x4abf5d38c06b401b, 0xe89fdaa028fb9481),
                      Lanes(0x3f19c0dd0a99411d, 0x008b2a2794966cd3, 0xfc338463777131fd, 0xf80002c904ca89bb))

  lemma S0P6Is()
    ensures PermuteAndMix(S0P5) == S0P6
  {
    hide Byte, Left;
    ShiftsWrittenOut();
    Factors(0x5cd4004fa84728df, 0x9f2665c5db0034cb, 0xa92a86eddd6eeb84, 0x034c1b451b5dcaab, 0x06a1ee6b68e3fa9a);
    Factors(0x4c05ce31c1187233, 0x4c8543eeaedf5a2f, 0xda5244c99588caa6, 0x455c283db57d16ec, 0x6fedc22993ebf616);
    Factors(0x68e3fa9a06a1ee6b, 0xbc4602af4e8623b3, 0x67d9df0ec374367d, 0xd46c33212beed67f, 0xa84728df5cd4004f);
    Factors(0x93ebf6166fedc229, 0xd8d6b5b587331403, 0x6a1d5bc30ea4d7ab, 0xfc0384278dda0082, 0xc11872334c05ce31);
  }

  const S0P7 := HHState(Lanes(0x3accca08ba29446d, 0xbed88693535d3fdd, 0xe9f2d44d62204655, 0x633960bee23c3b13),
                      Lanes(0x4b3155036fc1666b, 0x37afc96d9a3aea52, 0x63def389d4708693, 0x53364de02d094c4c),
                      Lanes(0x8a91d8491050ce59, 0x8b07aa912591832a, 0x4a85ec633cc1350c, 0xa2a0f788be4b36c7),
                      Lanes(0xadb694ff6eb553cd, 0x54fb1db400e0e09f, 0xf60947eb54cc1a6d, 0xcfbc63376faddbc7))

  lemma S0P7Is()
    ensures PermuteAndMix(S0P6) == S0P7
  {
    hide Byte, Left;
    ShiftsWrittenOut();
    Factors(0x49b6365a9ef8d4ab, 0xfad3af6c584ba487, 0xa53ff06590f7a663, 0x3f19c0dd0a99411d, 0x3d5f7058bc5487c7);
    Factors(0xe04de889c0e9a8f7, 0xe0bd018ac13d75ab, 0x9a6f9b16f5d18a5d, 0x008b2a2794966cd3, 0x81a5608c5ccee1f7);
    Factors(0xbc5487c73d5f7058, 0x24c37b6bf62e51bc, 0x4abf5d38c06b401b, 0xfc338463777131fd, 0x9ef8d4ab49b6365a);
    Factors(0x5ccee1f781a5608c, 0xc098d80cc3838160, 0xe89fdaa028fb9481, 0xf80002c904ca89bb, 0xc0e9a8f7e04de889);
  }

  const S0P8 := HHState(Lanes(0xfa2768fb9be3aaa4, 0x4b0e88160343c29f, 0x8745a16cdbeaa70d, 0x9b9c51ffd7177184),
                      Lanes(0xdc2f1db0d2e81fac, 0x9f92d6d4ab49c93d, 0x7629cbf6ede98582, 0xd0b8cab7fb44767d),
                      Lanes(0x92c82bf54c8b7cd1, 0x911c44cf16a64464, 0x0ff75127c5db4a37, 0xe3557899374a5ff3),
                      Lanes(0xa55ab67422193179, 0x62bce0d0aaa7ec27, 0xbcbcdf8d5c9d5659, 0xd8d0ed82bd845a5b))

  lemma S0P8Is()
    ensures PermuteAndMix(S0P7) == S0P8
  {
    hide Byte, Left;
    ShiftsWrittenOut();
    Factors(0x3accca08ba29446d, 0x4b3155036fc1666b, 0x8a91d8491050ce59, 0xadb694ff6eb553cd, 0x62204655e9f2d44d);
    Factors(0xbed88693535d3fdd, 0x37afc96d9a3aea52, 0x8b07aa912591832a, 0x54fb1db400e0e09f, 0xe23c3b13633960be);
    Factors(0xe9f2d44d62204655, 0x63def389d4708693, 0x4a85ec633cc1350c, 0xf60947eb54cc1a6d, 0xba29446d3accca08);
    Factors(0x633960bee23c3b13, 0x53364de02d094c4c, 0xa2a0f788be4b36c7, 0xcfbc63376faddbc7, 0x535d3fddbed88693);
  }

  const S0P9 := HHState(Lanes(0x88895d36aeb604c3, 0xf86c4a463b786223, 0xf8b9b94d0074ee13, 0x96f343e09a398f5c),
                      Lanes(0x0ed9f520046f8497, 0x8fea168aa80495db, 0x359bb6b7676118b4, 0xafaebf7fc0d6ac20),
                      Lanes(0x3022baf9fdce27a2, 0x8a712ba4a13b73a4, 0x5411b11ae60e55c7, 0xaf0f84c5911bd289),
                      Lanes(0x92c8730b9fbf293e, 0x67f4b526399db0d7, 0xbb3fc2691bb518eb, 0xb2ba1194aefc264b))

  lemma S0P9Is()
    ensures PermuteAndMix(S0P8) == S0P9
  {
    hide Byte, Left;
    ShiftsWrittenOut();
    Factors(0xfa2768fb9be3aaa4, 0xdc2f1db0d2e81fac, 0x92c82bf54c8b7cd1, 0xa55ab67422193179, 0xdbeaa70d8745a16c);
    Factors(0x4b0e88160343c29f, 0x9f92d6d4ab49c93d, 0x911c44cf16a64464, 0x62bce0d0aaa7ec27, 0xd71771849b9c51ff);
    Factors(0x8745a16cdbeaa70d, 0x7629cbf6ede98582, 0x0ff75127c5db4a37, 0xbcbcdf8d5c9d5659, 0x9be3aaa4fa2768fb);
    Factors(0x9b9c51ffd7177184, 0xd0b8cab7fb44767d, 0xe3557899374a5ff3, 0xd8d0ed82bd845a5b, 0x0343c29f4b0e8816);
  }

  const S0P10 := HHState(Lanes(0xa20635d6ed6cb9fb, 0x9fc070ba464940da, 0x659446ec892270d3, 0x829cb93def944af1),
                       Lanes(0x3b1157ee30642073, 0x576ed7cc507d23a5, 0x0be5dd321c1b093a, 0x00283ab403f3b5de),
                       Lanes(0xb5f8ad4ca9093fe6, 0x53e1a2006f43ee5e, 0x9bf5f1e537ff78fa, 0x84d5b1a937788ca9),
                       Lanes(0x81b9db8e35d19d13, 0x356320d7609fd769, 0xbd0be3d37816213d, 0x9ea3e1a50cf7ed34))

  lemma S0P10Is()
    ensures PermuteAndMix(S0P9) == S0P10
  {
    hide Byte, Left;
    ShiftsWrittenOut();
    Factors(0x88895d36aeb604c3, 0x0ed9f520046f8497, 0x3022baf9fdce27a2, 0x92c8730b9fbf293e, 0x0074ee13f8b9b94d);
    Factors(0xf86c4a463b786223, 0x8fea168aa80495db, 0x8a712ba4a13b73a4, 0x67f4b526399db0d7, 0x9a398f5c96f343e0);
    Factors(0xf8b9b94d0074ee13, 0x359bb6b7676118b4, 0x5411b11ae60e55c7, 0xbb3fc2691bb518eb, 0xaeb604c388895d36);
    Factors(0x96f343e09a398f5c, 0xafaebf7fc0d6ac20, 0xaf0f84c5911bd289, 0xb2ba1194aefc264b, 0x3b786223f86c4a46);
  }

  /** The results for 0 bytes. */
  lemma Hash0()
    ensures HighwayHash(KEY, M0).h64 == 0x907a56de22c26e53
    ensures HighwayHash(KEY, M0).h128 == (0x0fed268f9d8ffec7, 0x33565e767f093e6f)
    ensures HighwayHash(KEY, M0).h256
         == (0xdd44482ac2c874f5, 0xd946017313c7351f, 0xb3aebeccb98714ff, 0x41da233145751df4)
  {
    hide Absorb, PermuteAndMix;
    Absorbed0();
    S0P1Is();
    S0P2Is();
    S0P3Is();
    S0P4Is();
    S0P5Is();
    S0P6Is();
    S0P7Is();
    S0P8Is();
    S0P9Is();
    S0P10Is();
    assert Permuted(START, 1) == S0P1;
    assert Permuted(START, 2) == S0P2;
    assert Permuted(START, 3) == S0P3;
    assert Permuted(START, 4) == S0P4;
    assert Permuted(START, 5) == S0P5;
    assert Permuted(START, 6) == S0P6;
    assert Permuted(START, 7) == S0P7;
    assert Permuted(START, 8) == S0P8;
    assert Permuted(START, 9) == S0P9;
    assert Permuted(START, 10) == S0P10;
  }

  // Up to three bytes.

  const M3: seq<bv8> := [0, 1, 2]

  /** The remaining size added and rotated in. */
  const T3 := HHState(Lanes(0xdce0d0d4fd4ecf32, 0xab073531229538db, 0x040f9f3d10626257, 0x3b2177979eb911ce),
                    Lanes(0xc68cf881604784be, 0x5d37c30ed7fc3c05, 0x6a33befd1ff8cbc1, 0xf191c7f23e707359),
                    Lanes(0xdbe6d5d5fe4cce2f, 0xa4093822299f31d0, 0x13198a2e03707344, 0x243f6a8885a308d3),
                    Lanes(0x3bd39e10cb0ef593, 0xc0acf169b5f18a8c, 0xbe5466cf34e90c6c, 0x452821e638d01377))

  lemma T3Is()
    ensures START.(v0 := AddLanes(START.v0, Broadcast(SizePair(3))), v1 := RotateHalvesLanes(START.v1, 3)) == T3
  {
  }

  /** The padded packet. */
  const P3: seq<bv8> :=
    [0, 0, 0, 0, 0, 0, 0, 0] + [0, 0, 0, 0, 0, 0, 0, 0] +
    [0, 1, 2, 0, 0, 0, 0, 0] + [0, 0, 0, 0, 0, 0, 0, 0]

  lemma P3Is()
    ensures LanesOf(P3) == Lanes(0x0000000000000000, 0x0000000000000000, 0x0000000000020100, 0x0000000000000000)
  {
    hide Pack;
    PackIs(0, 0, 0, 0, 0, 0, 0, 0);
    PackIs(0, 0, 0, 0, 0, 0, 0, 0);
    PackIs(0, 1, 2, 0, 0, 0, 0, 0);
    PackIs(0, 0, 0, 0, 0, 0, 0, 0);
    LanesAre([0, 0, 0, 0, 0, 0, 0, 0],
             [0, 0, 0, 0, 0, 0, 0, 0],
             [0, 1, 2, 0, 0, 0, 0, 0],
             [0, 0, 0, 0, 0, 0, 0, 0]);
  }

  lemma Padded3()
    ensures PaddedPacket([0, 1, 2]) == P3
  {
  }

  const S3 := HHState(Lanes(0x05b5c12696f1f623, 0x0e899a08d4221a68, 0xc77946dd8eb6e8e6, 0xfd75e6fa099c5109),
                    Lanes(0xc582c4e120855b83, 0x06a9b04b9bbd94a9, 0x644b31a06a223a93, 0xdcdaabccaab05935),
                    Lanes(0x8a7c53e6efd9f26b, 0xa51be5d0edcf2f15, 0x13965c7ee2ec2f75, 0x097575315e41b927),
                    Lanes(0x44f6643351bd9160, 0xc1a38d8061d0e93b, 0x9fbea65c990139ad, 0x57764063ae282f95))

  lemma S3Is()
    ensures Mix(T3, Lanes(0x0000000000000000, 0x0000000000000000, 0x0000000000020100, 0x0000000000000000)) == S3
  {
    hide Byte, Left;
    ShiftsWrittenOut();
    Factors(0xdce0d0d4fd4ecf32, 0xc68cf881604784be, 0xdbe6d5d5fe4cce2f, 0x3bd39e10cb0ef593, 0x0000000000000000);
    Factors(0xab073531229538db, 0x5d37c30ed7fc3c05, 0xa4093822299f31d0, 0xc0acf169b5f18a8c, 0x0000000000000000);
    Factors(0x040f9f3d10626257, 0x6a33befd1ff8cbc1, 0x13198a2e03707344, 0xbe5466cf34e90c6c, 0x0000000000020100);
    Factors(0x3b2177979eb911ce, 0xf191c7f23e707359, 0x243f6a8885a308d3, 0x452821e638d01377, 0x0000000000000000);
  }

  lemma Absorbed3()
    ensures Absorb(KEY, M3) == S3
  {
    hide Mix, LanesOf, Start, PaddedPacket, SizePair, RotateHalvesLanes, AddLanes;
    StartIs();
    T3Is();
    P3Is();
    Padded3();
    S3Is();
    assert M3[0..] == M3;
  }

  const S3P1 := HHState(Lanes(0x1661b9baea87ae5a, 0xaee5de341cf5b22a, 0x95f218acac7c88e5, 0x6350fb09f33fc2b5),
                      Lanes(0x3964b094915fc9b5, 0xcb8c48d965f864d4, 0xf4370c926b4034da, 0x50282e2912bb5957),
                      Lanes(0x8eac2a059303d349, 0xa2b1532fd28f2ad5, 0x53ebef4ca309f5c3, 0x1e357f25f71d888f),
                      Lanes(0x8e9bc1e7964a0f6a, 0xe79afedc8bcd7609, 0x9df2457121748c4b, 0xd2a085f43a638761))

  lemma S3P1Is()
    ensures PermuteAndMix(S3) == S3P1
  {
    hide Byte, Left;
    ShiftsWrittenOut();
    Factors(0x05b5c12696f1f623, 0xc582c4e120855b83, 0x8a7c53e6efd9f26b, 0x44f6643351bd9160, 0x8eb6e8e6c77946dd);
    Factors(0x0e899a08d4221a68, 0x06a9b04b9bbd94a9, 0xa51be5d0edcf2f15, 0xc1a38d8061d0e93b, 0x099c5109fd75e6fa);
    Factors(0xc77946dd8eb6e8e6, 0x644b31a06a223a93, 0x13965c7ee2ec2f75, 0x9fbea65c990139ad, 0x96f1f62305b5c126);
    Factors(0xfd75e6fa099c5109, 0xdcdaabccaab05935, 0x097575315e41b927, 0x57764063ae282f95, 0xd4221a680e899a08);
  }

  const S3P2 := HHState(Lanes(0x4f5f311fe4277c7e, 0x0b336a9b079ba7ce, 0x8b704271789c8e54, 0x680c2bbe8d6183ce),
                      Lanes(0xf298dfb2eb7d518e, 0xb14bbe660673a9b9, 0x871338456748a2cf, 0x1721cffce42031a7),
                      Lanes(0x9ee6554050f404cd, 0xc8c84d11aff3a2fd, 0x469156a19d2a67b7, 0x59994a2a6c33b665),
                      Lanes(0xb43dee74cf29ff56, 0xa7de6926564cf9d3, 0xb530245a45eb1bfb, 0xca7603c41bada907))

  lemma S3P2Is()
    ensures PermuteAndMix(S3P1) == S3P2
  {
    hide Byte, Left;
    ShiftsWrittenOut();
    Factors(0x1661b9baea87ae5a, 0x3964b094915fc9b5, 0x8eac2a059303d349, 0x8e9bc1e7964a0f6a, 0xac7c88e595f218ac);
    Factors(0xaee5de341cf5b22a, 0xcb8c48d965f864d4, 0xa2b1532fd28f2ad5, 0xe79afedc8bcd7609, 0xf33fc2b56350fb09);
    Factors(0x95f218acac7c88e5, 0xf4370c926b4034da, 0x53ebef4ca309f5c3, 0x9df2457121748c4b, 0xea87ae5a1661b9ba);
    Factors(0x6350fb09f33fc2b5, 0x50282e2912bb5957, 0x1e357f25f71d888f, 0xd2a085f43a638761, 0x1cf5b22aaee5de34);
  }

  const S3P3 := HHState(Lanes(0xcfa4b80a7732c29b, 0xbd85ef39ed5be8bf, 0xe618a221ca5a9fa2, 0xe429fbd56a969230),
                      Lanes(0xa5d985cd8013d243, 0xd735342f0dce8361, 0x54b0aa8ef62d116f, 0x5e86da88571d7411),
                      Lanes(0xa31ea4795ab08879, 0xc99d5ecd951654c1, 0x6b36bebc7f76ba62, 0x7caa19a50d16d297),
                      Lanes(0xb3294f43eb6e2c9a, 0xa562156db336d8d5, 0x31638d0d10208dd0, 0x850e6bf7384dd5de))

  lemma S3P3Is()
    ensures PermuteAndMix(S3P2) == S3P3
  {
    hide Byte, Left;
    ShiftsWrittenOut();
    Factors(0x4f5f311fe4277c7e, 0xf298dfb2eb7d518e, 0x9ee6554050f404cd, 0xb43dee74cf29ff56, 0x789c8e548b704271);
    Factors(0x0b336a9b079ba7ce, 0xb14bbe660673a9b9, 0xc8c84d11aff3a2fd, 0xa7de6926564cf9d3, 0x8d6183ce680c2bbe);
    Factors(0x8b704271789c8e54, 0x871338456748a2cf, 0x469156a19d2a67b7, 0xb530245a45eb1bfb, 0xe4277c7e4f5f311f);
    Factors(0x680c2bbe8d6183ce, 0x1721cffce42031a7, 0x59994a2a6c33b665, 0xca7603c41bada907, 0x079ba7ce0b336a9b);
  }

  const S3P4 := HHState(Lanes(0x5fda03b82c7d1cf5, 0x76df577ac5a1ab1b, 0xf344b2bb05c41ab7, 0xa11982027f9f4f2f),
                      Lanes(0x08c8e6c8c45a7709, 0x6a84ffd8deb08cbc, 0xeebb4600f80c85e0, 0xbbbc213ca459f160),
                      Lanes(0x3f706cd6544430db, 0xaa61c5abf1959e3e, 0x55736f9f8f272f59, 0x62a54659aaddbda2),
                      Lanes(0xb4589854452a78a7, 0xa24a54b9824cb3d1, 0x1e6541b0e17caa0e, 0xfa927931d6c58928))

  lemma S3P4Is()
    ensures PermuteAndMix(S3P3) == S3P4
  {
    hide Byte, Left;
    ShiftsWrittenOut();
    Factors(0xcfa4b80a7732c29b, 0xa5d985cd8013d243, 0xa31ea4795ab08879, 0xb3294f43eb6e2c9a, 0xca5a9fa2e618a221);
    Factors(0xbd85ef39ed5be8bf, 0xd735342f0dce8361, 0xc99d5ecd951654c1, 0xa562156db336d8d5, 0x6a969230e429fbd5);
    Factors(0xe618a221ca5a9fa2, 0x54b0aa8ef62d116f, 0x6b36bebc7f76ba62, 0x31638d0d10208dd0, 0x7732c29bcfa4b80a);
    Factors(0xe429fbd56a969230, 0x5e86da88571d7411, 0x7caa19a50d16d297, 0x850e6bf7384dd5de, 0xed5be8bfbd85ef39);
  }

  /** The result for 3 bytes. */
  lemma Hash3()
    ensures HighwayHash(KEY, M3).h64 == 0x5c6befab8a463d80
  {
    hide Absorb, PermuteAndMix;
    Absorbed3();
    S3P1Is();
    S3P2Is();
    S3P3Is();
    S3P4Is();
    assert Permuted(S3, 1) == S3P1;
    assert Permuted(S3, 2) == S3P2;
    assert Permuted(S3, 3) == S3P3;
    assert Permuted(S3, 4) == S3P4;
  }

  // Fewer than 16 bytes, not all of them in words of four.

  const M13: seq<bv8> := [0, 1, 2, 3, 4, 5, 6, 7, 8, 9, 10, 11, 12]

  /** The remaining size added and rotated in. */
  const T13 := HHState(Lanes(0xdce0d0defd4ecf3c, 0xab07353b229538e5, 0x040f9f4710626261, 0x3b2177a19eb911d8),
                     Lanes(0x33e2071a1e12f981, 0xdf0c3974f0f0175f, 0xcefbf5a8e32f047f, 0x471fcbc6c1cd64f9),
                     Lanes(0xdbe6d5d5fe4cce2f, 0xa4093822299f31d0, 0x13198a2e03707344, 0x243f6a8885a308d3),
                     Lanes(0x3bd39e10cb0ef593, 0xc0acf169b5f18a8c, 0xbe5466cf34e90c6c, 0x452821e638d01377))

  lemma T13Is()
    ensures START.(v0 := AddLanes(START.v0, Broadcast(SizePair(13))), v1 := RotateHalvesLanes(START.v1, 13)) == T13
  {
  }

  /** The padded packet. */
  const P13: seq<bv8> :=
    [0, 1, 2, 3, 4, 5, 6, 7] + [8, 9, 10, 11, 0, 0, 0, 0] +
    [12, 12, 12, 0, 0, 0, 0, 0] + [0, 0, 0, 0, 0, 0, 0, 0]

  lemma P13Is()
    ensures LanesOf(P13) == Lanes(0x0706050403020100, 0x000000000b0a0908, 0x00000000000c0c0c, 0x0000000000000000)
  {
    hide Pack;
    PackIs(0, 1, 2, 3, 4, 5, 6, 7);
    PackIs(8, 9, 10, 11, 0, 0, 0, 0);
    PackIs(12, 12, 12, 0, 0, 0, 0, 0);
    PackIs(0, 0, 0, 0, 0, 0, 0, 0);
    LanesAre([0, 1, 2, 3, 4, 5, 6, 7],
             [8, 9, 10, 11, 0, 0, 0, 0],
             [12, 12, 12, 0, 0, 0, 0, 0],
             [0, 0, 0, 0, 0, 0, 0, 0]);
  }

  lemma Padded13()
    ensures PaddedPacket([0, 1, 2, 3, 4, 5, 6, 7, 8, 9, 10, 11, 12]) == P13
  {
  }

  const S13 := HHState(Lanes(0xc9383705a9bf5bee, 0x81ebf4f74a20b796, 0x91cf8975c4f6beb3, 0x6315aef50df9fb96),
                     Lanes(0x05503ddf5721c059, 0x4cabaa4f19b95781, 0x95793dec70a27993, 0xfcf6064af669e2d9),
                     Lanes(0xc0f542747d97c68f, 0xbd1740cf4d43647d, 0x10b14b8e76e06c2d, 0x34bf2aa6d9a9e99f),
                     Lanes(0x2a0a652740e571df, 0xae73e84dbaf6a22b, 0x83660f545d3e5e32, 0x1f4e5dd076523e16))

  lemma S13Is()
    ensures Mix(T13, Lanes(0x0706050403020100, 0x000000000b0a0908, 0x00000000000c0c0c, 0x0000000000000000)) == S13
  {
    hide Byte, Left;
    ShiftsWrittenOut();
    Factors(0xdce0d0defd4ecf3c, 0x33e2071a1e12f981, 0xdbe6d5d5fe4cce2f, 0x3bd39e10cb0ef593, 0x0706050403020100);
    Factors(0xab07353b229538e5, 0xdf0c3974f0f0175f, 0xa4093822299f31d0, 0xc0acf169b5f18a8c, 0x000000000b0a0908);
    Factors(0x040f9f4710626261, 0xcefbf5a8e32f047f, 0x13198a2e03707344, 0xbe5466cf34e90c6c, 0x00000000000c0c0c);
    Factors(0x3b2177a19eb911d8, 0x471fcbc6c1cd64f9, 0x243f6a8885a308d3, 0x452821e638d01377, 0x0000000000000000);
  }

  lemma Absorbed13()
    ensures Absorb(KEY, M13) == S13
  {
    hide Mix, LanesOf, Start, PaddedPacket, SizePair, RotateHalvesLanes, AddLanes;
    StartIs();
    T13Is();
    P13Is();
    Padded13();
    S13Is();
    assert M13[0..] == M13;
  }

  const S13P1 := HHState(Lanes(0x5059ace92a2e8233, 0xbc5319afeb29618b, 0xdab0b5a007f0a595, 0xd1d3f6876d4ba2fd),
                       Lanes(0xbef8c15b12b7bf87, 0x68484015e33c54de, 0xe5bb8b3d66aba3cc, 0x56d3992b484b61dc),
                       Lanes(0x906d63aa711e8a5e, 0xdb9ac8e66886a808, 0x74180af2b6d4ff24, 0x2b03f375c3f178a4),
                       Lanes(0x5594d104c4d66244, 0xae0b3281753c239f, 0x89cbabbddf30ecdf, 0x20b1769c8a8cbd76))

  lemma S13P1Is()
    ensures PermuteAndMix(S13) == S13P1
  {
    hide Byte, Left;
    ShiftsWrittenOut();
    Factors(0xc9383705a9bf5bee, 0x05503ddf5721c059, 0xc0f542747d97c68f, 0x2a0a652740e571df, 0xc4f6beb391cf8975);
    Factors(0x81ebf4f74a20b796, 0x4cabaa4f19b95781, 0xbd1740cf4d43647d, 0xae73e84dbaf6a22b, 0x0df9fb966315aef5);
    Factors(0x91cf8975c4f6beb3, 0x95793dec70a27993, 0x10b14b8e76e06c2d, 0x83660f545d3e5e32, 0xa9bf5beec9383705);
    Factors(0x6315aef50df9fb96, 0xfcf6064af669e2d9, 0x34bf2aa6d9a9e99f, 0x1f4e5dd076523e16, 0x4a20b79681ebf4f7);
  }

  const S13P2 := HHState(Lanes(0x2ba07d1cb98bded5, 0xc1cba3250bfc2047, 0x3de9b05dfffbbee1, 0x76b47018e667c43b),
                       Lanes(0x2d18a966dc12253e, 0xdc764c1ac1930f78, 0x6578d7181ed568d8, 0xaa3cd7f138f75215),
                       Lanes(0x8dc62f0b50d66653, 0xce5ebd4a98cba48b, 0x29cfb6f704c2ab84, 0x8f60655179ba966d),
                       Lanes(0x041f637701e05849, 0xecbcf6909f9f3a9b, 0xfee49876a3ae6e03, 0x4939713a3357c0b2))

  lemma S13P2Is()
    ensures PermuteAndMix(S13P1) == S13P2
  {
    hide Byte, Left;
    ShiftsWrittenOut();
    Factors(0x5059ace92a2e8233, 0xbef8c15b12b7bf87, 0x906d63aa711e8a5e, 0x5594d104c4d66244, 0x07f0a595dab0b5a0);
    Factors(0xbc5319afeb29618b, 0x68484015e33c54de, 0xdb9ac8e66886a808, 0xae0b3281753c239f, 0x6d4ba2fdd1d3f687);
    Factors(0xdab0b5a007f0a595, 0xe5bb8b3d66aba3cc, 0x74180af2b6d4ff24, 0x89cbabbddf30ecdf, 0x2a2e82335059ace9);
    Factors(0xd1d3f6876d4ba2fd, 0x56d3992b484b61dc, 0x2b03f375c3f178a4, 0x20b1769c8a8cbd76, 0xeb29618bbc5319af);
  }

  const S13P3 := HHState(Lanes(0x1e511bd0533ed788, 0x68a473da78aeaeb3, 0xb513da6e0fe2b733, 0x0895b5de773d6961),
                       Lanes(0x43436ef786111641, 0xaff01f4f44c1f493, 0x7bdd247a2a1b6f87, 0xfafa70f429bafa1e),
                       Lanes(0x9ff268a195d7a25b, 0x501b00e9fce1cc6c, 0x3ae77d4ead05f31c, 0xb9639cf67df0b1c5),
                       Lanes(0x8cd3cb8b55c4c8f3, 0x8de736296848fddb, 0xd06b335c78fe4513, 0x4e397a88f47b0070))

  lemma S13P3Is()
    ensures PermuteAndMix(S13P2) == S13P3
  {
    hide Byte, Left;
    ShiftsWrittenOut();
    Factors(0x2ba07d1cb98bded5, 0x2d18a966dc12253e, 0x8dc62f0b50d66653, 0x041f637701e05849, 0xfffbbee13de9b05d);
    Factors(0xc1cba3250bfc2047, 0xdc764c1ac1930f78, 0xce5ebd4a98cba48b, 0xecbcf6909f9f3a9b, 0xe667c43b76b47018);
    Factors(0x3de9b05dfffbbee1, 0x6578d7181ed568d8, 0x29cfb6f704c2ab84, 0xfee49876a3ae6e03, 0xb98bded52ba07d1c);
    Factors(0x76b47018e667c43b, 0xaa3cd7f138f75215, 0x8f60655179ba966d, 0x4939713a3357c0b2, 0x0bfc2047c1cba325);
  }

  const S13P4 := HHState(Lanes(0xb59c7aa438003b4b, 0xea68c27a6a3178d8, 0xf8ac8bd702539b3b, 0x618c33872808b9e1),
                       Lanes(0x3f02ca354afd0d42, 0x2d2126130c6b1b47, 0x456514dd80c60575, 0x25ee69574358f6e5),
                       Lanes(0x874da77bb734247b, 0x4e4c06590e09b35e, 0x977b811d056cb076, 0xb9ef97c1511d9723),
                       Lanes(0x2cad6c792bb4d4f7, 0xe535e9e3020d36b7, 0xd5319606b6a3aef3, 0x5ccdbc146829ca8e))

  lemma S13P4Is()
    ensures PermuteAndMix(S13P3) == S13P4
  {
    hide Byte, Left;
    ShiftsWrittenOut();
    Factors(0x1e511bd0533ed788, 0x43436ef786111641, 0x9ff268a195d7a25b, 0x8cd3cb8b55c4c8f3, 0x0fe2b733b513da6e);
    Factors(0x68a473da78aeaeb3, 0xaff01f4f44c1f493, 0x501b00e9fce1cc6c, 0x8de736296848fddb, 0x773d69610895b5de);
    Factors(0xb513da6e0fe2b733, 0x7bdd247a2a1b6f87, 0x3ae77d4ead05f31c, 0xd06b335c78fe4513, 0x533ed7881e511bd0);
    Factors(0x0895b5de773d6961, 0xfafa70f429bafa1e, 0xb9639cf67df0b1c5, 0x4e397a88f47b0070, 0x78aeaeb368a473da);
  }

  /** The result for 13 bytes. */
  lemma Hash13()
    ensures HighwayHash(KEY, M13).h64 == 0xa89a58ce65e641ff
  {
    hide Absorb, PermuteAndMix;
    Absorbed13();
    S13P1Is();
    S13P2Is();
    S13P3Is();
    S13P4Is();
    assert Permuted(S13, 1) == S13P1;
    assert Permuted(S13, 2) == S13P2;
    assert Permuted(S13, 3) == S13P3;
    assert Permuted(S13, 4) == S13P4;
  }

  // At least 16 bytes, the last four of them at the end of the packet.

  const M18: seq<bv8> := [0, 1, 2, 3, 4, 5, 6, 7, 8, 9, 10, 11, 12, 13, 14, 15, 16, 17]

  /** The remaining size added and rotated in. */
  const T18 := HHState(Lanes(0xdce0d0e3fd4ecf41, 0xab073540229538ea, 0x040f9f4c10626266, 0x3b2177a69eb911dd),
                     Lanes(0x7c40e346c25f3023, 0xe1872e9b1e02ebfe, 0xdf7eb51965e08ffc, 0xe3f978c839ac9f38),
                     Lanes(0xdbe6d5d5fe4cce2f, 0xa4093822299f31d0, 0x13198a2e03707344, 0x243f6a8885a308d3),
                     Lanes(0x3bd39e10cb0ef593, 0xc0acf169b5f18a8c, 0xbe5466cf34e90c6c, 0x452821e638d01377))

  lemma T18Is()
    ensures START.(v0 := AddLanes(START.v0, Broadcast(SizePair(18))), v1 := RotateHalvesLanes(START.v1, 18)) == T18
  {
  }

  /** The padded packet. */
  const P18: seq<bv8> :=
    [0, 1, 2, 3, 4, 5, 6, 7] + [8, 9, 10, 11, 12, 13, 14, 15] +
    [0, 0, 0, 0, 0, 0, 0, 0] + [0, 0, 0, 0, 14, 15, 16, 17]

  lemma P18Is()
    ensures LanesOf(P18) == Lanes(0x0706050403020100, 0x0f0e0d0c0b0a0908, 0x0000000000000000, 0x11100f0e00000000)
  {
    hide Pack;
    PackIs(0, 1, 2, 3, 4, 5, 6, 7);
    PackIs(8, 9, 10, 11, 12, 13, 14, 15);
    PackIs(0, 0, 0, 0, 0, 0, 0, 0);
    PackIs(0, 0, 0, 0, 14, 15, 16, 17);
    LanesAre([0, 1, 2, 3, 4, 5, 6, 7],
             [8, 9, 10, 11, 12, 13, 14, 15],
             [0, 0, 0, 0, 0, 0, 0, 0],
             [0, 0, 0, 0, 14, 15, 16, 17]);
  }

  lemma Padded18()
    ensures PaddedPacket([0, 1, 2, 3, 4, 5, 6, 7, 8, 9, 10, 11, 12, 13, 14, 15, 16, 17]) == P18
  {
  }

  const S18 := HHState(Lanes(0x6b496e93870b8e97, 0xcb8a53d04c32e3c8, 0x027d0963849ccd3b, 0x72553235c9d86d13),
                     Lanes(0xf6f94cab31b9cfd9, 0x0066bdaca5deba22, 0x2e0b0c9c72ed38c4, 0x1b5c6fcbf2280bd4),
                     Lanes(0x73338a813c30cb99, 0x933269fa79713250, 0x12b23b7ac6a1c444, 0x080f34e1c28c1cf1),
                     Lanes(0x71ad0744221f0713, 0xbd1f1f72d380f32a, 0xfffee2622c086652, 0x5061eea045950faf))

  lemma S18Is()
    ensures Mix(T18, Lanes(0x0706050403020100, 0x0f0e0d0c0b0a0908, 0x0000000000000000, 0x11100f0e00000000)) == S18
  {
    hide Byte, Left;
    ShiftsWrittenOut();
    Factors(0xdce0d0e3fd4ecf41, 0x7c40e346c25f3023, 0xdbe6d5d5fe4cce2f, 0x3bd39e10cb0ef593, 0x0706050403020100);
    Factors(0xab073540229538ea, 0xe1872e9b1e02ebfe, 0xa4093822299f31d0, 0xc0acf169b5f18a8c, 0x0f0e0d0c0b0a0908);
    Factors(0x040f9f4c10626266, 0xdf7eb51965e08ffc, 0x13198a2e03707344, 0xbe5466cf34e90c6c, 0x0000000000000000);
    Factors(0x3b2177a69eb911dd, 0xe3f978c839ac9f38, 0x243f6a8885a308d3, 0x452821e638d01377, 0x11100f0e00000000);
  }

  lemma Absorbed18()
    ensures Absorb(KEY, M18) == S18
  {
    hide Mix, LanesOf, Start, PaddedPacket, SizePair, RotateHalvesLanes, AddLanes;
    StartIs();
    T18Is();
    P18Is();
    Padded18();
    S18Is();
    assert M18[0..] == M18;
  }

  const S18P1 := HHState(Lanes(0xb2541a494d92501a, 0x77513c61b4593e83, 0x9deb5764877daa31, 0x8a4ce95297ac2b42),
                       Lanes(0x0940f4b88afa0622, 0x0ff4e8f8cdfe685b, 0xf95380fafc55be22, 0x0ce173a269eae12c),
                       Lanes(0x5c281a812024e7d6, 0xe0fec805ab6e3ee0, 0x13280ff5da88cbb5, 0x3149b581ba31f828),
                       Lanes(0xec67d172c4621875, 0xb68d7a901840e0fe, 0x7625e22726808184, 0x56dbe84421ef9ec3))

  lemma S18P1Is()
    ensures PermuteAndMix(S18) == S18P1
  {
    hide Byte, Left;
    ShiftsWrittenOut();
    Factors(0x6b496e93870b8e97, 0xf6f94cab31b9cfd9, 0x73338a813c30cb99, 0x71ad0744221f0713, 0x849ccd3b027d0963);
    Factors(0xcb8a53d04c32e3c8, 0x0066bdaca5deba22, 0x933269fa79713250, 0xbd1f1f72d380f32a, 0xc9d86d1372553235);
    Factors(0x027d0963849ccd3b, 0x2e0b0c9c72ed38c4, 0x12b23b7ac6a1c444, 0xfffee2622c086652, 0x870b8e976b496e93);
    Factors(0x72553235c9d86d13, 0x1b5c6fcbf2280bd4, 0x080f34e1c28c1cf1, 0x5061eea045950faf, 0x4c32e3c8cb8a53d0);
  }

  const S18P2 := HHState(Lanes(0xfb44315bcafea9d8, 0x1a6c9d82a9538a84, 0x3503de108f30d33e, 0x3bdddeac2109d5a0),
                       Lanes(0xc50162d77b08c826, 0x842420cba10cec36, 0x9849b4e9676350af, 0x28246b7d797725d6),
                       Lanes(0x6ec93999b90df8ea, 0xe142b8cc85a3ef8d, 0x478a210fcc663735, 0x62b1bf8b44f148d2),
                       Lanes(0xfcfaaf88215312b0, 0xdbbcdeee67133b3f, 0x4b11281e9e067443, 0xf90eac3786935280))

  lemma S18P2Is()
    ensures PermuteAndMix(S18P1) == S18P2
  {
    hide Byte, Left;
    ShiftsWrittenOut();
    Factors(0xb2541a494d92501a, 0x0940f4b88afa0622, 0x5c281a812024e7d6, 0xec67d172c4621875, 0x877daa319deb5764);
    Factors(0x77513c61b4593e83, 0x0ff4e8f8cdfe685b, 0xe0fec805ab6e3ee0, 0xb68d7a901840e0fe, 0x97ac2b428a4ce952);
    Factors(0x9deb5764877daa31, 0xf95380fafc55be22, 0x13280ff5da88cbb5, 0x7625e22726808184, 0x4d92501ab2541a49);
    Factors(0x8a4ce95297ac2b42, 0x0ce173a269eae12c, 0x3149b581ba31f828, 0x56dbe84421ef9ec3, 0xb4593e8377513c61);
  }

  const S18P3 := HHState(Lanes(0x18c580545b6bf4f1, 0xb899782bbff57525, 0xbf49bf58ac44d3b0, 0xdf175cf05d72faf8),
                       Lanes(0xb4b46448e985ca7b, 0x9e9674addb840f2e, 0x5bb252e9ee52a9eb, 0xf421ff8735476487),
                       Lanes(0x09e020c3a066488a, 0xeb6ef705040750d3, 0x4e34ac5bc25b02c5, 0x5004b9d8d903d0ea),
                       Lanes(0x4f04a393c4a5ca48, 0xd321dd5a09e8b497, 0x553acb794ba5d291, 0xdb29971832e3c300))

  lemma S18P3Is()
    ensures PermuteAndMix(S18P2) == S18P3
  {
    hide Byte, Left;
    ShiftsWrittenOut();
    Factors(0xfb44315bcafea9d8, 0xc50162d77b08c826, 0x6ec93999b90df8ea, 0xfcfaaf88215312b0, 0x8f30d33e3503de10);
    Factors(0x1a6c9d82a9538a84, 0x842420cba10cec36, 0xe142b8cc85a3ef8d, 0xdbbcdeee67133b3f, 0x2109d5a03bdddeac);
    Factors(0x3503de108f30d33e, 0x9849b4e9676350af, 0x478a210fcc663735, 0x4b11281e9e067443, 0xcafea9d8fb44315b);
    Factors(0x3bdddeac2109d5a0, 0x28246b7d797725d6, 0x62b1bf8b44f148d2, 0xf90eac3786935280, 0xa9538a841a6c9d82);
  }

  const S18P4 := HHState(Lanes(0xc5b1f66078476a82, 0xf6ad2f423080e77a, 0x1888b7eeec5e2c0a, 0xbfdd46b5bf3af4be),
                       Lanes(0xedcfc36b3f7d14d5, 0xacf31892ee231d21, 0x1012211480d1e2f0, 0x1cdab77a0d1f9c5b),
                       Lanes(0x0ef5a615280ece0e, 0x6219b78975e8e4a8, 0xd8b25b5bc20a77a5, 0xfd57e023f8c902aa),
                       Lanes(0x426630c5bc830f5d, 0x65a7b59b99ce7c03, 0x501d21913c62d727, 0xd978a9b708b082d8))

  lemma S18P4Is()
    ensures PermuteAndMix(S18P3) == S18P4
  {
    hide Byte, Left;
    ShiftsWrittenOut();
    Factors(0x18c580545b6bf4f1, 0xb4b46448e985ca7b, 0x09e020c3a066488a, 0x4f04a393c4a5ca48, 0xac44d3b0bf49bf58);
    Factors(0xb899782bbff57525, 0x9e9674addb840f2e, 0xeb6ef705040750d3, 0xd321dd5a09e8b497, 0x5d72faf8df175cf0);
    Factors(0xbf49bf58ac44d3b0, 0x5bb252e9ee52a9eb, 0x4e34ac5bc25b02c5, 0x553acb794ba5d291, 0x5b6bf4f118c58054);
    Factors(0xdf175cf05d72faf8, 0xf421ff8735476487, 0x5004b9d8d903d0ea, 0xdb29971832e3c300, 0xbff57525b899782b);
  }

  /** The result for 18 bytes. */
  lemma Hash18()
    ensures HighwayHash(KEY, M18).h64 == 0x04dd90a69c565cc2
  {
    hide Absorb, PermuteAndMix;
    Absorbed18();
    S18P1Is();
    S18P2Is();
    S18P3Is();
    S18P4Is();
    assert Permuted(S18, 1) == S18P1;
    assert Permuted(S18, 2) == S18P2;
    assert Permuted(S18, 3) == S18P3;
    assert Permuted(S18, 4) == S18P4;
  }

  // One whole packet and nothing else.

  /** A message of one whole packet. */
  const M32: seq<bv8> :=
    [0, 1, 2, 3, 4, 5, 6, 7] + [8, 9, 10, 11, 12, 13, 14, 15] +
    [16, 17, 18, 19, 20, 21, 22, 23] + [24, 25, 26, 27, 28, 29, 30, 31]

  lemma M32Is()
    ensures LanesOf(M32) == Lanes(0x0706050403020100, 0x0f0e0d0c0b0a0908, 0x1716151413121110, 0x1f1e1d1c1b1a1918)
  {
    hide Pack;
    PackIs(0, 1, 2, 3, 4, 5, 6, 7);
    PackIs(8, 9, 10, 11, 12, 13, 14, 15);
    PackIs(16, 17, 18, 19, 20, 21, 22, 23);
    PackIs(24, 25, 26, 27, 28, 29, 30, 31);
    LanesAre([0, 1, 2, 3, 4, 5, 6, 7],
             [8, 9, 10, 11, 12, 13, 14, 15],
             [16, 17, 18, 19, 20, 21, 22, 23],
             [24, 25, 26, 27, 28, 29, 30, 31]);
  }

  const S32 := HHState(Lanes(0xdf332ea141b5548f, 0x870ce55a162fae53, 0x8f05a3985ccd10fa, 0x57a00fab9814470a),
                     Lanes(0xab45cdf6fc0d1a07, 0x5e11713ed4d8636e, 0xd1cd27c1de4f4928, 0x3099c5e9d79fc8ee),
                     Lanes(0x6acd68c11bf8be89, 0x0415411531681200, 0x13f4125d3223077c, 0x0a6d214934a6e36b),
                     Lanes(0x2e6566d33ebf7ec7, 0xab9fcd28f9fc7250, 0x840637c436c58aac, 0xcd2e69dfaa4900b3))

  lemma S32Is()
    ensures Mix(START, Lanes(0x0706050403020100, 0x0f0e0d0c0b0a0908, 0x1716151413121110, 0x1f1e1d1c1b1a1918)) == S32
  {
    hide Byte, Left;
    ShiftsWrittenOut();
    Factors(0xdce0d0d1fd4ecf2f, 0x38d19f10cc08f097, 0xdbe6d5d5fe4cce2f, 0x3bd39e10cb0ef593, 0x0706050403020100);
    Factors(0xab07352e229538d8, 0xcba6f861baff8780, 0xa4093822299f31d0, 0xc0acf169b5f18a8c, 0x0f0e0d0c0b0a0908);
    Factors(0x040f9f3a10626254, 0xad4677df23ff1978, 0x13198a2e03707344, 0xbe5466cf34e90c6c, 0x1716151413121110);
    Factors(0x3b2177949eb911cb, 0x5e3238fe27ce0e6b, 0x243f6a8885a308d3, 0x452821e638d01377, 0x1f1e1d1c1b1a1918);
  }

  lemma Absorbed32()
    ensures Absorb(KEY, M32) == S32
  {
    hide Mix, LanesOf, Start;
    StartIs();
    M32Is();
    S32Is();
    assert M32[..32] == M32 && M32[32..] == [];
    assert AbsorbPackets(S32, []) == S32;
  }

  const S32P1 := HHState(Lanes(0x369311aec78031fd, 0xa4c693090a0cd300, 0x585d5a9322382295, 0x4c81f01cd7b0f650),
                       Lanes(0x70847978b88b85ef, 0x303b8d31f0ed3323, 0xbcc2b13049dd9b67, 0xa986f37d8404258a),
                       Lanes(0xfb690e1ca978fba1, 0x359361c4754235ca, 0x9616ab2a83867884, 0x3800a28a079d2cfa),
                       Lanes(0x17c1f69dd1a8b50b, 0xa4511cb7971cf48a, 0x92b99a4d9eba5478, 0xd823c3fd5c3b8d5d))

  lemma S32P1Is()
    ensures PermuteAndMix(S32) == S32P1
  {
    hide Byte, Left;
    ShiftsWrittenOut();
    Factors(0xdf332ea141b5548f, 0xab45cdf6fc0d1a07, 0x6acd68c11bf8be89, 0x2e6566d33ebf7ec7, 0x5ccd10fa8f05a398);
    Factors(0x870ce55a162fae53, 0x5e11713ed4d8636e, 0x0415411531681200, 0xab9fcd28f9fc7250, 0x9814470a57a00fab);
    Factors(0x8f05a3985ccd10fa, 0xd1cd27c1de4f4928, 0x13f4125d3223077c, 0x840637c436c58aac, 0x41b5548fdf332ea1);
    Factors(0x57a00fab9814470a, 0x3099c5e9d79fc8ee, 0x0a6d214934a6e36b, 0xcd2e69dfaa4900b3, 0x162fae53870ce55a);
  }

  const S32P2 := HHState(Lanes(0x7192e4cc438a2dc2, 0xd720d51a86daf23c, 0x85021a754fe97f10, 0x3f330dff9d53dbdd),
                       Lanes(0x50fcd74b9eebf666, 0xaebc7839888c258f, 0x2a990d8b1ee124e8, 0x71716be33dbb5b2a),
                       Lanes(0xdcd2b9635142096b, 0x46975912ca10799b, 0x9748cc36e931185f, 0x3677cb6d3d036796),
                       Lanes(0x42cace43cfe1825b, 0x82e6642bc77df536, 0x816585e6185d7600, 0xf7ebf514cc519f35))

  lemma S32P2Is()
    ensures PermuteAndMix(S32P1) == S32P2
  {
    hide Byte, Left;
    ShiftsWrittenOut();
    Factors(0x369311aec78031fd, 0x70847978b88b85ef, 0xfb690e1ca978fba1, 0x17c1f69dd1a8b50b, 0x22382295585d5a93);
    Factors(0xa4c693090a0cd300, 0x303b8d31f0ed3323, 0x359361c4754235ca, 0xa4511cb7971cf48a, 0xd7b0f6504c81f01c);
    Factors(0x585d5a9322382295, 0xbcc2b13049dd9b67, 0x9616ab2a83867884, 0x92b99a4d9eba5478, 0xc78031fd369311ae);
    Factors(0x4c81f01cd7b0f650, 0xa986f37d8404258a, 0x3800a28a079d2cfa, 0xd823c3fd5c3b8d5d, 0x0a0cd300a4c69309);
  }

  const S32P3 := HHState(Lanes(0xfaefcdb7229bd992, 0xd730f2f3fc28a703, 0x1995c31f6fec8289, 0x3cf96fab9384ff63),
                       Lanes(0x1090e8f042cc0d68, 0x8cab9cd183f86525, 0x8ea88a7e3d91cd82, 0x4827bf8cc163b76d),
                       Lanes(0xef2fc0a74ae54ea3, 0x3c1f44d1645acab1, 0xa87b06a6682598f0, 0x2241910ef3df33b0),
                       Lanes(0x4b435141f57e9af8, 0xae0460d7677eee74, 0x8350e62e7054ba40, 0xe4a75ae1eaf335df))

  lemma S32P3Is()
    ensures PermuteAndMix(S32P2) == S32P3
  {
    hide Byte, Left;
    ShiftsWrittenOut();
    Factors(0x7192e4cc438a2dc2, 0x50fcd74b9eebf666, 0xdcd2b9635142096b, 0x42cace43cfe1825b, 0x4fe97f1085021a75);
    Factors(0xd720d51a86daf23c, 0xaebc7839888c258f, 0x46975912ca10799b, 0x82e6642bc77df536, 0x9d53dbdd3f330dff);
    Factors(0x85021a754fe97f10, 0x2a990d8b1ee124e8, 0x9748cc36e931185f, 0x816585e6185d7600, 0x438a2dc27192e4cc);
    Factors(0x3f330dff9d53dbdd, 0x71716be33dbb5b2a, 0x3677cb6d3d036796, 0xf7ebf514cc519f35, 0x86daf23cd720d51a);
  }

  const S32P4 := HHState(Lanes(0x708f3e4844617b31, 0xf4b7016b44f3b59c, 0xc64cdddf4ae8dc69, 0x7ab18a6c75ebecce),
                       Lanes(0xa1a1a7d7e5a88a6e, 0xccec70bb273fe7c5, 0xc33a47697e8fa073, 0x2d60448c175fbd85),
                       Lanes(0x4cd7e6e7eee4a7a5, 0x23453f6871e993c2, 0xb875497a45f21307, 0x0335930c3fe17700),
                       Lanes(0x41c097d1d3e6d3b8, 0x8deb32d1e37af9be, 0xcdceba67fc9017ef, 0xd60b5b43149ef421))

  lemma S32P4Is()
    ensures PermuteAndMix(S32P3) == S32P4
  {
    hide Byte, Left;
    ShiftsWrittenOut();
    Factors(0xfaefcdb7229bd992, 0x1090e8f042cc0d68, 0xef2fc0a74ae54ea3, 0x4b435141f57e9af8, 0x6fec82891995c31f);
    Factors(0xd730f2f3fc28a703, 0x8cab9cd183f86525, 0x3c1f44d1645acab1, 0xae0460d7677eee74, 0x9384ff633cf96fab);
    Factors(0x1995c31f6fec8289, 0x8ea88a7e3d91cd82, 0xa87b06a6682598f0, 0x8350e62e7054ba40, 0x229bd992faefcdb7);
    Factors(0x3cf96fab9384ff63, 0x4827bf8cc163b76d, 0x2241910ef3df33b0, 0xe4a75ae1eaf335df, 0xfc28a703d730f2f3);
  }

  /** The result for 32 bytes. */
  lemma Hash32()
    ensures HighwayHash(KEY, M32).h64 == 0xa0c964d9ecd580fc
  {
    hide Absorb, PermuteAndMix;
    Absorbed32();
    S32P1Is();
    S32P2Is();
    S32P3Is();
    S32P4Is();
    assert Permuted(S32, 1) == S32P1;
    assert Permuted(S32, 2) == S32P2;
    assert Permuted(S32, 3) == S32P3;
    assert Permuted(S32, 4) == S32P4;
  }

  // A whole packet and six bytes.

  const M38: seq<bv8> := M32 + [32, 33, 34, 35, 36, 37]

  /** The remaining size added and rotated in. */
  const T38 := HHState(Lanes(0xdf332ea741b55495, 0x870ce560162fae59, 0x8f05a39e5ccd1100, 0x57a00fb198144710),
                     Lanes(0xd1737daa034681ff, 0x845c4f973618dbb5, 0x7349f07493d24a37, 0x26717a4ce7f23bb5),
                     Lanes(0x6acd68c11bf8be89, 0x0415411531681200, 0x13f4125d3223077c, 0x0a6d214934a6e36b),
                     Lanes(0x2e6566d33ebf7ec7, 0xab9fcd28f9fc7250, 0x840637c436c58aac, 0xcd2e69dfaa4900b3))

  lemma T38Is()
    ensures S32.(v0 := AddLanes(S32.v0, Broadcast(SizePair(6))), v1 := RotateHalvesLanes(S32.v1, 6)) == T38
  {
  }

  /** The padded packet. */
  const P38: seq<bv8> :=
    [32, 33, 34, 35, 0, 0, 0, 0] + [0, 0, 0, 0, 0, 0, 0, 0] +
    [36, 37, 37, 0, 0, 0, 0, 0] + [0, 0, 0, 0, 0, 0, 0, 0]

  lemma P38Is()
    ensures LanesOf(P38) == Lanes(0x0000000023222120, 0x0000000000000000, 0x0000000000252524, 0x0000000000000000)
  {
    hide Pack;
    PackIs(32, 33, 34, 35, 0, 0, 0, 0);
    PackIs(0, 0, 0, 0, 0, 0, 0, 0);
    PackIs(36, 37, 37, 0, 0, 0, 0, 0);
    PackIs(0, 0, 0, 0, 0, 0, 0, 0);
    LanesAre([32, 33, 34, 35, 0, 0, 0, 0],
             [0, 0, 0, 0, 0, 0, 0, 0],
             [36, 37, 37, 0, 0, 0, 0, 0],
             [0, 0, 0, 0, 0, 0, 0, 0]);
  }

  lemma Padded38()
    ensures PaddedPacket([32, 33, 34, 35, 36, 37]) == P38
  {
  }

  const S38 := HHState(Lanes(0xb620f6ec66d67f9e, 0x6f61f376a0ac8c10, 0xea3c524095ad3272, 0xabeeb7b0ddf718df),
                     Lanes(0xdab065cd3937d80e, 0x3e81b1395b2dda55, 0xf9e935c018c8276c, 0x1bbdd7aed4905ffd),
                     Lanes(0x532d715182725a11, 0x328f75378d101ee0, 0x7d5937debb103ace, 0x03a4ca412617864b),
                     Lanes(0x305e948e330781b3, 0xa30150df1b6273dc, 0xc9f038fd3155e5c0, 0xc1855b71827c1df1))

  lemma S38Is()
    ensures Mix(T38, Lanes(0x0000000023222120, 0x0000000000000000, 0x0000000000252524, 0x0000000000000000)) == S38
  {
    hide Byte, Left;
    ShiftsWrittenOut();
    Factors(0xdf332ea741b55495, 0xd1737daa034681ff, 0x6acd68c11bf8be89, 0x2e6566d33ebf7ec7, 0x0000000023222120);
    Factors(0x870ce560162fae59, 0x845c4f973618dbb5, 0x0415411531681200, 0xab9fcd28f9fc7250, 0x0000000000000000);
    Factors(0x8f05a39e5ccd1100, 0x7349f07493d24a37, 0x13f4125d3223077c, 0x840637c436c58aac, 0x0000000000252524);
    Factors(0x57a00fb198144710, 0x26717a4ce7f23bb5, 0x0a6d214934a6e36b, 0xcd2e69dfaa4900b3, 0x0000000000000000);
  }

  lemma Absorbed38()
    ensures Absorb(KEY, M38) == S38
  {
    hide Mix, LanesOf, Start, PaddedPacket, SizePair, RotateHalvesLanes, AddLanes;
    StartIs();
    M32Is();
    S32Is();
    assert M38[..32] == M32;
    T38Is();
    P38Is();
    Padded38();
    S38Is();
    assert M38[32..] == [32, 33, 34, 35, 36, 37];
    assert AbsorbPackets(START, M38) == S32;
  }

  const S38P1 := HHState(Lanes(0x45cf0f82a3c451f6, 0xd648d005fb3b9180, 0xdaece44db4fc18bb, 0x4c322bfb8e7c743a),
                       Lanes(0xba615ad9b5aa8a02, 0x94890ee2646833e0, 0x996505706ef654da, 0x9a4a1a749586274c),
                       Lanes(0x252a4fa10be70b85, 0x72f767ba8757f66e, 0x0367599f46dc4f4e, 0x4493bff16c0702eb),
                       Lanes(0x45d938c56dc21652, 0x990fff2b52697e1c, 0x6558374fd886e82a, 0x89d97a4168757df1))

  lemma S38P1Is()
    ensures PermuteAndMix(S38) == S38P1
  {
    hide Byte, Left;
    ShiftsWrittenOut();
    Factors(0xb620f6ec66d67f9e, 0xdab065cd3937d80e, 0x532d715182725a11, 0x305e948e330781b3, 0x95ad3272ea3c5240);
    Factors(0x6f61f376a0ac8c10, 0x3e81b1395b2dda55, 0x328f75378d101ee0, 0xa30150df1b6273dc, 0xddf718dfabeeb7b0);
    Factors(0xea3c524095ad3272, 0xf9e935c018c8276c, 0x7d5937debb103ace, 0xc9f038fd3155e5c0, 0x66d67f9eb620f6ec);
    Factors(0xabeeb7b0ddf718df, 0x1bbdd7aed4905ffd, 0x03a4ca412617864b, 0xc1855b71827c1df1, 0xa0ac8c106f61f376);
  }

  const S38P2 := HHState(Lanes(0x603dc244d5053fe4, 0x03a25688389745d3, 0xeb1fceb73f24e7e0, 0x1648373762c6f802),
                       Lanes(0x788b02d95e8402a9, 0xf6d0281c8e899a81, 0x20a7984ec9c5eae9, 0xc51b8bdf0f9cb19e),
                       Lanes(0x0f86e5348c2e422d, 0x5c231a05cf090903, 0xd457d5e75e823d6c, 0x04ae6cd8538b6e3f),
                       Lanes(0x4ff3c742dc02c162, 0xb47238e06d1dca18, 0x46e88c8bcf7bb153, 0x5bbbf7af29bff653))

  lemma S38P2Is()
    ensures PermuteAndMix(S38P1) == S38P2
  {
    hide Byte, Left;
    ShiftsWrittenOut();
    Factors(0x45cf0f82a3c451f6, 0xba615ad9b5aa8a02, 0x252a4fa10be70b85, 0x45d938c56dc21652, 0xb4fc18bbdaece44d);
    Factors(0xd648d005fb3b9180, 0x94890ee2646833e0, 0x72f767ba8757f66e, 0x990fff2b52697e1c, 0x8e7c743a4c322bfb);
    Factors(0xdaece44db4fc18bb, 0x996505706ef654da, 0x0367599f46dc4f4e, 0x6558374fd886e82a, 0xa3c451f645cf0f82);
    Factors(0x4c322bfb8e7c743a, 0x9a4a1a749586274c, 0x4493bff16c0702eb, 0x89d97a4168757df1, 0xfb3b9180d648d005);
  }

  const S38P3 := HHState(Lanes(0x3de69d4280da261b, 0x7fcfc642e08ffe5e, 0xcb0b45a4bd2623bb, 0x3c69335ccb5108bb),
                       Lanes(0xe2b5f6be73ac560d, 0xf31921233a6a1d9b, 0x8540d183cdac4756, 0xce1c49929a1c1b30),
                       Lanes(0x5fe4b9910b194959, 0x5d861232621c0c5b, 0xa9343128688aec33, 0x0c5c0991dcdc4c8c),
                       Lanes(0xc630e735613e0876, 0xc1d3b79167d2b114, 0x4d6271dc8847887d, 0x5af598fe4f15f981))

  lemma S38P3Is()
    ensures PermuteAndMix(S38P2) == S38P3
  {
    hide Byte, Left;
    ShiftsWrittenOut();
    Factors(0x603dc244d5053fe4, 0x788b02d95e8402a9, 0x0f86e5348c2e422d, 0x4ff3c742dc02c162, 0x3f24e7e0eb1fceb7);
    Factors(0x03a25688389745d3, 0xf6d0281c8e899a81, 0x5c231a05cf090903, 0xb47238e06d1dca18, 0x62c6f80216483737);
    Factors(0xeb1fceb73f24e7e0, 0x20a7984ec9c5eae9, 0xd457d5e75e823d6c, 0x46e88c8bcf7bb153, 0xd5053fe4603dc244);
    Factors(0x1648373762c6f802, 0xc51b8bdf0f9cb19e, 0x04ae6cd8538b6e3f, 0x5bbbf7af29bff653, 0x389745d303a25688);
  }

  const S38P4 := HHState(Lanes(0x0e336a68b6e83eda, 0x40f63e318551bb4a, 0xe42987896d8b2eac, 0x475d1b886c2fca32),
                       Lanes(0xda011301b4b916c0, 0x2a3a6fcc1740c5d7, 0x5b965724fba95938, 0x9f3a7b4d11f7b76a),
                       Lanes(0x4e3dfc08465767cd, 0x31c8c2eb512d777f, 0xf52cf0473693953f, 0x36605df52a946dc4),
                       Lanes(0x27d084fe78641c4d, 0xc635e1904ffb1e34, 0x62e9017d003617f5, 0x49bf82bfaaf1e7f9))

  lemma S38P4Is()
    ensures PermuteAndMix(S38P3) == S38P4
  {
    hide Byte, Left;
    ShiftsWrittenOut();
    Factors(0x3de69d4280da261b, 0xe2b5f6be73ac560d, 0x5fe4b9910b194959, 0xc630e735613e0876, 0xbd2623bbcb0b45a4);
    Factors(0x7fcfc642e08ffe5e, 0xf31921233a6a1d9b, 0x5d861232621c0c5b, 0xc1d3b79167d2b114, 0xcb5108bb3c69335c);
    Factors(0xcb0b45a4bd2623bb, 0x8540d183cdac4756, 0xa9343128688aec33, 0x4d6271dc8847887d, 0x80da261b3de69d42);
    Factors(0x3c69335ccb5108bb, 0xce1c49929a1c1b30, 0x0c5c0991dcdc4c8c, 0x5af598fe4f15f981, 0xe08ffe5e7fcfc642);
  }

  const S38P5 := HHState(Lanes(0x4ccbf5996c874506, 0x9d0aea1ad218902d, 0x266ce1f2f431d2e1, 0x987c49ababa3f8a8),
                       Lanes(0x9c6782c1d4c12082, 0x1460c87a99e3f2b0, 0xe94458c321a204d3, 0x81950184c726560a),
                       Lanes(0x425ffda5662ef33d, 0x1d532cb89be8b101, 0xcc427305a427bd68, 0x149c9299cad6a2bc),
                       Lanes(0x3c7c4a4a09a304f7, 0x60fb6436fc5ee59a, 0x61a0d3e4c26a81f3, 0x4188bba0d5e3ac7d))

  lemma S38P5Is()
    ensures PermuteAndMix(S38P4) == S38P5
  {
    hide Byte, Left;
    ShiftsWrittenOut();
    Factors(0x0e336a68b6e83eda, 0xda011301b4b916c0, 0x4e3dfc08465767cd, 0x27d084fe78641c4d, 0x6d8b2eace4298789);
    Factors(0x40f63e318551bb4a, 0x2a3a6fcc1740c5d7, 0x31c8c2eb512d777f, 0xc635e1904ffb1e34, 0x6c2fca32475d1b88);
    Factors(0xe42987896d8b2eac, 0x5b965724fba95938, 0xf52cf0473693953f, 0x62e9017d003617f5, 0xb6e83eda0e336a68);
    Factors(0x475d1b886c2fca32, 0x9f3a7b4d11f7b76a, 0x36605df52a946dc4, 0x49bf82bfaaf1e7f9, 0x8551bb4a40f63e31);
  }

  const S38P6 := HHState(Lanes(0x3b26353ac987255e, 0xd063483fbbbfbe95, 0x5c766d21c731a0e6, 0xfce5142ea58f7454),
                       Lanes(0x31c978ab96e4357a, 0x18ed149a17082817, 0x090ab1b47fc6e69b, 0xc49e9ac043970485),
                       Lanes(0x5f6ad6aae122c8f4, 0x63d8a9b6d61e8259, 0xce8853df89aea700, 0x089f169644a0c91c),
                       Lanes(0x5d1d8c0e7b55d2df, 0xd27f6f2df58519a7, 0x79ea182afb27569f, 0x754c250a99d39681))

  lemma S38P6Is()
    ensures PermuteAndMix(S38P5) == S38P6
  {
    hide Byte, Left;
    ShiftsWrittenOut();
    Factors(0x4ccbf5996c874506, 0x9c6782c1d4c12082, 0x425ffda5662ef33d, 0x3c7c4a4a09a304f7, 0xf431d2e1266ce1f2);
    Factors(0x9d0aea1ad218902d, 0x1460c87a99e3f2b0, 0x1d532cb89be8b101, 0x60fb6436fc5ee59a, 0xaba3f8a8987c49ab);
    Factors(0x266ce1f2f431d2e1, 0xe94458c321a204d3, 0xcc427305a427bd68, 0x61a0d3e4c26a81f3, 0x6c8745064ccbf599);
    Factors(0x987c49ababa3f8a8, 0x81950184c726560a, 0x149c9299cad6a2bc, 0x4188bba0d5e3ac7d, 0xd218902d9d0aea1a);
  }

  const S38P7 := HHState(Lanes(0x27662c9f355a9e11, 0xfb811d2be3501526, 0xabe94849ecf4e3c9, 0x1411534eaefefd2d),
                       Lanes(0x6a618ebe00d796c4, 0x497b98bb075c5e81, 0x6a2f0e038d9011c1, 0x342b59e9ac995f8e),
                       Lanes(0x6e72483ce6ca3192, 0xdd5ce6c12b84dabb, 0xd64fe4d00d986975, 0x5f18e5a95e53a75c),
                       Lanes(0x4adaed2c4fc18c93, 0xc5b94c8882020f0b, 0x03a7c964e2109b25, 0x54a77b53a452c1dd))

  lemma S38P7Is()
    ensures PermuteAndMix(S38P6) == S38P7
  {
    hide Byte, Left;
    ShiftsWrittenOut();
    Factors(0x3b26353ac987255e, 0x31c978ab96e4357a, 0x5f6ad6aae122c8f4, 0x5d1d8c0e7b55d2df, 0xc731a0e65c766d21);
    Factors(0xd063483fbbbfbe95, 0x18ed149a17082817, 0x63d8a9b6d61e8259, 0xd27f6f2df58519a7, 0xa58f7454fce5142e);
    Factors(0x5c766d21c731a0e6, 0x090ab1b47fc6e69b, 0xce8853df89aea700, 0x79ea182afb27569f, 0xc987255e3b26353a);
    Factors(0xfce5142ea58f7454, 0xc49e9ac043970485, 0x089f169644a0c91c, 0x754c250a99d39681, 0xbbbfbe95d063483f);
  }

  const S38P8 := HHState(Lanes(0x12162aa33fa7d437, 0x86c53240e244e877, 0x8507b9435f9439b0, 0xddcea7c6a7c0a310),
                       Lanes(0xfd4f8f89be3250de, 0xe84e93917937306c, 0x26b6cab37c236e34, 0xfba45c5dae2e67bc),
                       Lanes(0x78c75a94845e9753, 0x98ef7ed8afb7e795, 0x54e97031ac26aac8, 0x5f99ef90eaf56a3a),
                       Lanes(0x2c0de6c1ab6a4103, 0x911bede754eaaf52, 0x5ceabab2341870dd, 0x72308fb7cd8ed499))

  lemma S38P8Is()
    ensures PermuteAndMix(S38P7) == S38P8
  {
    hide Byte, Left;
    ShiftsWrittenOut();
    Factors(0x27662c9f355a9e11, 0x6a618ebe00d796c4, 0x6e72483ce6ca3192, 0x4adaed2c4fc18c93, 0xecf4e3c9abe94849);
    Factors(0xfb811d2be3501526, 0x497b98bb075c5e81, 0xdd5ce6c12b84dabb, 0xc5b94c8882020f0b, 0xaefefd2d1411534e);
    Factors(0xabe94849ecf4e3c9, 0x6a2f0e038d9011c1, 0xd64fe4d00d986975, 0x03a7c964e2109b25, 0x355a9e1127662c9f);
    Factors(0x1411534eaefefd2d, 0x342b59e9ac995f8e, 0x5f18e5a95e53a75c, 0x54a77b53a452c1dd, 0xe3501526fb811d2b);
  }

  const S38P9 := HHState(Lanes(0xb24cb3630eaa9101, 0xeda8cbe7eced65cf, 0x812fb778a30d10c7, 0x0b357f82aa3893c8),
                       Lanes(0xd798b5777b438882, 0xdbce01e0d2ab23b3, 0x82531f51f16dc642, 0xbf4b63f99f217ce0),
                       Lanes(0x76dd5922acfd438f, 0x9b63fd61d2b02855, 0x4abcb633e04e3355, 0x443c049d5b9911fe),
                       Lanes(0xe83ed75fba5843af, 0x99cdb5e87f77a5c1, 0x30e20b6e0f909ab1, 0x6e008087affdd5cf))

  lemma S38P9Is()
    ensures PermuteAndMix(S38P8) == S38P9
  {
    hide Byte, Left;
    ShiftsWrittenOut();
    Factors(0x12162aa33fa7d437, 0xfd4f8f89be3250de, 0x78c75a94845e9753, 0x2c0de6c1ab6a4103, 0x5f9439b08507b943);
    Factors(0x86c53240e244e877, 0xe84e93917937306c, 0x98ef7ed8afb7e795, 0x911bede754eaaf52, 0xa7c0a310ddcea7c6);
    Factors(0x8507b9435f9439b0, 0x26b6cab37c236e34, 0x54e97031ac26aac8, 0x5ceabab2341870dd, 0x3fa7d43712162aa3);
    Factors(0xddcea7c6a7c0a310, 0xfba45c5dae2e67bc, 0x5f99ef90eaf56a3a, 0x72308fb7cd8ed499, 0xe244e87786c53240);
  }

  const S38P10 := HHState(Lanes(0x23ad0e2ce872df59, 0x7901059bfff56d40, 0xad026f5b18a611fc, 0x54fbba652899f17f),
                        Lanes(0x4afcfe62b7e31f71, 0x44ab4077b685f889, 0xd80e7882f3af1212, 0x9df3d158a2fcb5ed),
                        Lanes(0x00dfa6b52ddaeb74, 0x38898577aa2e3fd3, 0x081c4d5233d3f865, 0x4e10d1aad5ddc2f4),
                        Lanes(0x559c480fbdbba51f, 0x97eb937ee4418661, 0xa9ace4a94f37a6f9, 0x3abcace68cec41e5))

  lemma S38P10Is()
    ensures PermuteAndMix(S38P9) == S38P10
  {
    hide Byte, Left;
    ShiftsWrittenOut();
    Factors(0xb24cb3630eaa9101, 0xd798b5777b438882, 0x76dd5922acfd438f, 0xe83ed75fba5843af, 0xa30d10c7812fb778);
    Factors(0xeda8cbe7eced65cf, 0xdbce01e0d2ab23b3, 0x9b63fd61d2b02855, 0x99cdb5e87f77a5c1, 0xaa3893c80b357f82);
    Factors(0x812fb778a30d10c7, 0x82531f51f16dc642, 0x4abcb633e04e3355, 0x30e20b6e0f909ab1, 0x0eaa9101b24cb363);
    Factors(0x0b357f82aa3893c8, 0xbf4b63f99f217ce0, 0x443c049d5b9911fe, 0x6e008087affdd5cf, 0xeced65cfeda8cbe7);
  }

  /** The results for 38 bytes. */
  lemma Hash38()
    ensures HighwayHash(KEY, M38).h64 == 0x5e42fe712a5cd9b4
    ensures HighwayHash(KEY, M38).h128 == (0x1d85d5c525982b8c, 0x6e26b1c16f48dbf4)
    ensures HighwayHash(KEY, M38).h256
         == (0xe7db21cf2b0b51ad, 0xfafc6324f4b0ab6c, 0xb0857244c22d9c5b, 0xf0ad888d1e05849c)
  {
    hide Absorb, PermuteAndMix;
    Absorbed38();
    S38P1Is();
    S38P2Is();
    S38P3Is();
    S38P4Is();
    S38P5Is();
    S38P6Is();
    S38P7Is();
    S38P8Is();
    S38P9Is();
    S38P10Is();
    assert Permuted(S38, 1) == S38P1;
    assert Permuted(S38, 2) == S38P2;
    assert Permuted(S38, 3) == S38P3;
    assert Permuted(S38, 4) == S38P4;
    assert Permuted(S38, 5) == S38P5;
    assert Permuted(S38, 6) == S38P6;
    assert Permuted(S38, 7) == S38P7;
    assert Permuted(S38, 8) == S38P8;
    assert Permuted(S38, 9) == S38P9;
    assert Permuted(S38, 10) == S38P10;
  }
}
