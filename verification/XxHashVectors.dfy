/** Published values of XXH64, for each way through the code: the empty message, single
    bytes, a four, an eight, and a whole stripe. Every product and every rotation is
    computed on constants. */
module XxHashVectors {
  import opened XxHash

  // The operations, one at a time.

  lemma Rotate1(x: bv64)
    ensures RotateLeft(x, 1) == (x << 1) | (x >> 63)
  {
    assert RotateLeft(x, 1) == (x << 1) | (x >> 63);
  }

  lemma Rotate7(x: bv64)
    ensures RotateLeft(x, 7) == (x << 7) | (x >> 57)
  {
    assert RotateLeft(x, 7) == (x << 7) | (x >> 57);
  }

  lemma Rotate11(x: bv64)
    ensures RotateLeft(x, 11) == (x << 11) | (x >> 53)
  {
    assert RotateLeft(x, 11) == (x << 11) | (x >> 53);
  }

  lemma Rotate12(x: bv64)
    ensures RotateLeft(x, 12) == (x << 12) | (x >> 52)
  {
    assert RotateLeft(x, 12) == (x << 12) | (x >> 52);
  }

  lemma Rotate18(x: bv64)
    ensures RotateLeft(x, 18) == (x << 18) | (x >> 46)
  {
    assert RotateLeft(x, 18) == (x << 18) | (x >> 46);
  }

  lemma Rotate23(x: bv64)
    ensures RotateLeft(x, 23) == (x << 23) | (x >> 41)
  {
    assert RotateLeft(x, 23) == (x << 23) | (x >> 41);
  }

  lemma Rotate27(x: bv64)
    ensures RotateLeft(x, 27) == (x << 27) | (x >> 37)
  {
    assert RotateLeft(x, 27) == (x << 27) | (x >> 37);
  }

  lemma Rotate31(x: bv64)
    ensures RotateLeft(x, 31) == (x << 31) | (x >> 33)
  {
    assert RotateLeft(x, 31) == (x << 31) | (x >> 33);
  }

  lemma Shift33(x: bv64)
    ensures MixShift(x, 33) == x ^ (x >> 33)
  {
    assert MixShift(x, 33) == x ^ (x >> 33);
  }

  lemma Shift29(x: bv64)
    ensures MixShift(x, 29) == x ^ (x >> 29)
  {
    assert MixShift(x, 29) == x ^ (x >> 29);
  }

  lemma Shift32(x: bv64)
    ensures MixShift(x, 32) == x ^ (x >> 32)
  {
    assert MixShift(x, 32) == x ^ (x >> 32);
  }

  lemma SingleIs(previous: bv64, input: bv64)
    ensures ProcessSingle(previous, input) == RotateLeft(previous + input * PRIME2, 31) * PRIME1
  {
    hide RotateLeft;
  }

  lemma MergeIs(result: bv64, s: bv64)
    ensures MergeOne(result, s) == (result ^ ProcessSingle(0, s)) * PRIME1 + PRIME4
  {
    hide ProcessSingle;
  }

  lemma Eat8Is(result: bv64, word: bv64)
    ensures Eat8(result, word) == RotateLeft(result ^ ProcessSingle(0, word), 27) * PRIME1 + PRIME4
  {
    hide RotateLeft, ProcessSingle;
  }

  lemma Eat4Is(result: bv64, word: bv64)
    ensures Eat4(result, word) == RotateLeft(result ^ (word * PRIME1), 23) * PRIME2 + PRIME3
  {
    hide RotateLeft;
  }

  lemma Eat1Is(result: bv64, byte: bv8)
    ensures Eat1(result, byte) == RotateLeft(result ^ ((byte as bv64) * PRIME5), 11) * PRIME1
  {
    hide RotateLeft;
  }

  lemma AvalancheIs(x: bv64)
    ensures Avalanche(x) == MixShift(MixShift(MixShift(x, 33) * PRIME2, 29) * PRIME3, 32)
  {
    hide MixShift;
  }

  lemma LengthIs(x: bv64, n: nat)
    requires n < 64
    ensures AddLength(x, n) == x + (n as bv64)
  {
  }

  lemma ShortMessage(message: seq<bv8>)
    requires |message| < 32
    ensures Leftover(message) == message
  {
  }

  lemma OneStripeAnd(a: Accumulators, stripe: seq<bv8>, rest: seq<bv8>)
    requires |stripe| == 32 && |rest| < 32
    ensures Stripes(a, stripe + rest) == Process(a, stripe) && Leftover(stripe + rest) == rest
  {
    hide Process;
    assert (stripe + rest)[..32] == stripe && (stripe + rest)[32..] == rest;
  }

  // The remaining bytes, from the front.

  lemma EatEight(result: bv64, word: seq<bv8>, rest: seq<bv8>)
    requires |word| == 8
    ensures EatRest(result, word + rest) == EatRest(Eat8(result, Load64(word)), rest)
  {
    hide Eat8, Load64;
    assert (word + rest)[..8] == word && (word + rest)[8..] == rest;
  }

  lemma EatFour(result: bv64, word: seq<bv8>, rest: seq<bv8>)
    requires |word| == 4 && |rest| < 4
    ensures EatRest(result, word + rest) == EatBytes(Eat4(result, Load32(word)), rest)
  {
    hide Eat4, Load32;
    assert (word + rest)[..4] == word && (word + rest)[4..] == rest;
  }

  lemma EatNothing(result: bv64)
    ensures EatRest(result, []) == result
  {
    hide Eat8, Eat4, Eat1;
    assert EatBytes(result, []) == result;
  }

  lemma EatOne(result: bv64, a: bv8)
    ensures EatBytes(result, [a]) == Eat1(result, a)
  {
    hide Eat1;
    assert [a][1..] == [];
  }

  lemma EatTwo(result: bv64, a: bv8, b: bv8)
    ensures EatBytes(result, [a, b]) == Eat1(Eat1(result, a), b)
  {
    hide Eat1;
    assert [a, b][1..] == [b];
    EatOne(Eat1(result, a), b);
  }

  lemma EatThree(result: bv64, a: bv8, b: bv8, c: bv8)
    ensures EatBytes(result, [a, b, c]) == Eat1(Eat1(Eat1(result, a), b), c)
  {
    hide Eat1;
    assert [a, b, c][1..] == [b, c];
    EatTwo(Eat1(result, a), b, c);
  }

  /** The empty message. */
  lemma Empty()
    ensures XXH64(0, []) == 0xef46db3751d8e999
  {
    hide RotateLeft, MixShift, ProcessSingle, MergeOne, EatRest, Stripes, Leftover, Converge, Avalanche;
    LengthIs(0x27d4eb2f165667c5, 0);
    ShortMessage([]);
    EatNothing(0x27d4eb2f165667c5);
    AvalancheIs(0x27d4eb2f165667c5);
    Shift33(0x27d4eb2f165667c5);
    Shift29(0xbeb13dda13c2ed4e);
    Shift32(0xef46db37be9e32ae);
  }

  lemma ThreeBytesRest()
    ensures EatRest(0x27d4eb2f165667c8, [97, 98, 99]) == 0xe87a46f8b9a4c39e
  {
    hide RotateLeft, MixShift, ProcessSingle, MergeOne, Eat8, Eat4, Eat1, Avalanche;
    EatThree(0x27d4eb2f165667c8, 97, 98, 99);
    Eat1Is(0x27d4eb2f165667c8, 97);
    Rotate11(0x3079f7f860eb366d);
    Eat1Is(0x0e6d11bdc91f0215, 98);
    Rotate11(0x31ef19bb440cbb7f);
    Eat1Is(0x791983e9ab307069, 99);
    Rotate11(0x1e4f70dc085a5146);
  }

  /** The text abc. */
  lemma ThreeBytes()
    ensures XXH64(0, [97, 98, 99]) == 0x44bc2cf5ad770999
  {
    hide RotateLeft, MixShift, ProcessSingle, MergeOne, Eat8, Eat4, Eat1, Avalanche;
    ThreeBytesRest();
    LengthIs(0x27d4eb2f165667c5, 3);
    ShortMessage([97, 98, 99]);
    AvalancheIs(0xe87a46f8b9a4c39e);
    Shift33(0xe87a46f8b9a4c39e);
    Shift29(0xdfe7320e5d13dbbe);
    Shift32(0x44bc2cf5e9cb256c);
  }

  lemma FourBytesRest()
    ensures EatRest(0x27d4eb2f165667c9, [97, 98, 99, 100]) == 0x00e08a5499ba7dcb
  {
    hide RotateLeft, MixShift, ProcessSingle, MergeOne, Eat8, Eat4, Eat1, Avalanche;
    assert [97, 98, 99, 100] + [] == [97, 98, 99, 100];
    EatFour(0x27d4eb2f165667c9, [97, 98, 99, 100], []);
    assert Load32([97, 98, 99, 100]) == 0x0000000064636261;
    Eat4Is(0x27d4eb2f165667c9, 0x0000000064636261);
    Rotate23(0xb0451dfb06420cee);
  }

  /** The text abcd. */
  lemma FourBytes()
    ensures XXH64(0, [97, 98, 99, 100]) == 0xde0327b0d25d92cc
  {
    hide RotateLeft, MixShift, ProcessSingle, MergeOne, Eat8, Eat4, Eat1, Avalanche;
    FourBytesRest();
    LengthIs(0x27d4eb2f165667c5, 4);
    ShortMessage([97, 98, 99, 100]);
    AvalancheIs(0x00e08a5499ba7dcb);
    Shift33(0x00e08a5499ba7dcb);
    Shift29(0xfc0dff0678f2186f);
    Shift32(0xde0327b00c5eb57c);
  }

  lemma EightBytesRest()
    ensures EatRest(0x27d4eb2f165667cd, [97, 98, 99, 100, 101, 102, 103, 104] + []) == 0xa119981d165ad1df
  {
    hide RotateLeft, MixShift, ProcessSingle, MergeOne, Eat8, Eat4, Eat1, Avalanche;
    EatEight(0x27d4eb2f165667cd, [97, 98, 99, 100, 101, 102, 103, 104], []);
    assert Load64([97, 98, 99, 100, 101, 102, 103, 104]) == 0x6867666564636261;
    SingleIs(0x0000000000000000, 0x6867666564636261);
    Rotate31(0xc32851d8754e66ef);
    Eat8Is(0x27d4eb2f165667cd, 0x6867666564636261);
    Rotate27(0xf25674881c59abb9);
  }

  /** The text abcdefgh. */
  lemma EightBytes()
    ensures XXH64(0, [97, 98, 99, 100, 101, 102, 103, 104]) == 0x3ad351775b4634b7
  {
    hide RotateLeft, MixShift, ProcessSingle, MergeOne, Eat8, Eat4, Eat1, Avalanche;
    EightBytesRest();
    assert [97, 98, 99, 100, 101, 102, 103, 104] + [] == [97, 98, 99, 100, 101, 102, 103, 104];
    LengthIs(0x27d4eb2f165667c5, 8);
    ShortMessage([97, 98, 99, 100, 101, 102, 103, 104]);
    AvalancheIs(0xa119981d165ad1df);
    Shift33(0xa119981d165ad1df);
    Shift29(0x2a2d41b7f1860e7f);
    Shift32(0x3ad35177619565c0);
  }

  lemma FourteenRest()
    ensures EatRest(0x27d4eb2fb48de184, [158, 255, 31, 75, 94, 83, 47, 221] + ([181, 84, 77, 42] + [149, 43]))
         == 0x45c2e53989b25669
  {
    hide RotateLeft, MixShift, ProcessSingle, MergeOne, Eat8, Eat4, Eat1, Avalanche;
    EatEight(0x27d4eb2fb48de184, [158, 255, 31, 75, 94, 83, 47, 221], [181, 84, 77, 42] + [149, 43]);
    assert Load64([158, 255, 31, 75, 94, 83, 47, 221]) == 0xdd2f535e4b1fff9e;
    SingleIs(0x0000000000000000, 0xdd2f535e4b1fff9e);
    Rotate31(0x38e3ac264f5debc2);
    Eat8Is(0x27d4eb2fb48de184, 0xdd2f535e4b1fff9e);
    Rotate27(0xf278622d81ee0381);
    EatFour(0x3164064b7724f65a, [181, 84, 77, 42], [149, 43]);
    assert Load32([181, 84, 77, 42]) == 0x000000002a4d54b5;
    Eat4Is(0x3164064b7724f65a, 0x000000002a4d54b5);
    Rotate23(0xfae147d069e18b29);
    EatTwo(0x6f4cb3505acedd46, 149, 43);
    Eat1Is(0x6f4cb3505acedd46, 149);
    Rotate11(0x41a051385a84b8ef);
    Eat1Is(0xc126fc321d6e9edb, 43);
    Rotate11(0x71e57cdaddedf0cc);
  }

  /** An eight, a four and two single bytes, under a seed that is not zero. */
  lemma Fourteen()
    ensures XXH64(2654435761, [158, 255, 31, 75, 94, 83, 47, 221] + ([181, 84, 77, 42] + [149, 43]))
         == 0x5b9611585efcc9cb
  {
    hide RotateLeft, MixShift, ProcessSingle, MergeOne, Eat8, Eat4, Eat1, Avalanche;
    FourteenRest();
    LengthIs(0x27d4eb2fb48de176, 14);
    ShortMessage([158, 255, 31, 75, 94, 83, 47, 221] + ([181, 84, 77, 42] + [149, 43]));
    AvalancheIs(0x45c2e53989b25669);
    Shift33(0x45c2e53989b25669);
    Shift29(0xbeb48cee1f794e9b);
    Shift32(0x5b961158056ad893);
  }

  const STRIPE_TEXT: seq<bv8> :=
    [78, 111, 98, 111, 100, 121, 32, 105] + [110, 115, 112, 101, 99, 116, 115, 32] +
    [116, 104, 101, 32, 115, 112, 97, 109] + [109, 105, 115, 104, 32, 114, 101, 112]

  lemma StripeWords()
    ensures Load64(STRIPE_TEXT[..8]) == 0x692079646f626f4e && Load64(STRIPE_TEXT[8..16]) == 0x207374636570736e
    ensures Load64(STRIPE_TEXT[16..24]) == 0x6d61707320656874 && Load64(STRIPE_TEXT[24..]) == 0x706572206873696d
  {
    assert STRIPE_TEXT[..8] == [78, 111, 98, 111, 100, 121, 32, 105];
    assert STRIPE_TEXT[8..16] == [110, 115, 112, 101, 99, 116, 115, 32];
    assert STRIPE_TEXT[16..24] == [116, 104, 101, 32, 115, 112, 97, 109];
    assert STRIPE_TEXT[24..] == [109, 105, 115, 104, 32, 114, 101, 112];
  }

  lemma OneStripeProcessed()
    ensures Process(Start(0), STRIPE_TEXT)
         == Accumulators(0x37245127a4067e4b, 0x1b302b0a818f92cf,
                         0xcd62d843d0580fca, 0x1c16e43ef2142a4a)
  {
    hide RotateLeft, MixShift, ProcessSingle, MergeOne, Eat8, Eat4, Eat1, Avalanche, Load64;
    StripeWords();
    SingleIs(0x60ea27eeadc0b5d6, 0x692079646f626f4e);
    Rotate31(0x67da963b77e5a8e8);
    SingleIs(0xc2b2ae3d27d4eb4f, 0x207374636570736e);
    Rotate31(0x81ab3ef308968441);
    SingleIs(0x0000000000000000, 0x6d61707320656874);
    Rotate31(0x0a6264cc423db7cc);
    SingleIs(0x61c8864e7a143579, 0x706572206873696d);
    Rotate31(0xe08cc7cc90bccd1c);
  }

  lemma Converged()
    ensures Converge(Accumulators(0x37245127a4067e4b, 0x1b302b0a818f92cf,
                                  0xcd62d843d0580fca, 0x1c16e43ef2142a4a)) == 0x84f22c421a11a8b5
  {
    hide RotateLeft, MixShift, ProcessSingle, MergeOne, Eat8, Eat4, Eat1, Avalanche;
    Rotate1(0x37245127a4067e4b);
    Rotate7(0x1b302b0a818f92cf);
    Rotate12(0xcd62d843d0580fca);
    Rotate18(0x1c16e43ef2142a4a);
    SingleIs(0x0000000000000000, 0x37245127a4067e4b);
    Rotate31(0xbf0e534a970bd225);
    MergeIs(0xc4de2ce639fb8154, 0x37245127a4067e4b);
    SingleIs(0x0000000000000000, 0x1b302b0a818f92cf);
    Rotate31(0x40bcc4c2e37e52e1);
    MergeIs(0x30d40ddd00aea144, 0x1b302b0a818f92cf);
    SingleIs(0x0000000000000000, 0xcd62d843d0580fca);
    Rotate31(0x1917ffa4faf34d56);
    MergeIs(0xe5a1f095bf498698, 0xcd62d843d0580fca);
    SingleIs(0x0000000000000000, 0x1c16e43ef2142a4a);
    Rotate31(0x2898226b8252fad6);
    MergeIs(0xf9cee721e748096d, 0x1c16e43ef2142a4a);
  }

  lemma TextEndRest()
    ensures EatRest(0x84f22c421a11a8dc, [101, 116, 105, 116] + [105, 111, 110]) == 0x1d0a47483b37cc24
  {
    hide RotateLeft, MixShift, ProcessSingle, MergeOne, Eat8, Eat4, Eat1, Avalanche;
    EatFour(0x84f22c421a11a8dc, [101, 116, 105, 116], [105, 111, 110]);
    assert Load32([101, 116, 105, 116]) == 0x0000000074697465;
    Eat4Is(0x84f22c421a11a8dc, 0x0000000074697465);
    Rotate23(0x6d741571f13abb9f);
    EatThree(0x9fca0f5d0aaa110f, 105, 111, 110);
    Eat1Is(0x9fca0f5d0aaa110f, 105);
    Rotate11(0xc99e790d23da9ec2);
    Eat1Is(0x769671546f21ba14, 111);
    Rotate11(0x33c7883ec057447f);
    Eat1Is(0xeae9b643c5f94e52, 110);
    Rotate11(0xf794b8785cd9d8f4);
  }

  /** The text "Nobody inspects the spammish repetition". */
  lemma Text()
    ensures XXH64(0, STRIPE_TEXT + ([101, 116, 105, 116] + [105, 111, 110])) == 0xfbcea83c8a378bf1
  {
    hide RotateLeft, MixShift, ProcessSingle, MergeOne, Eat8, Eat4, Eat1, Avalanche, Process, Converge, Start;
    var message := STRIPE_TEXT + ([101, 116, 105, 116] + [105, 111, 110]);
    OneStripeAnd(Start(0), STRIPE_TEXT, [101, 116, 105, 116] + [105, 111, 110]);
    OneStripeProcessed();
    Converged();
    TextEndRest();
    LengthIs(0x84f22c421a11a8b5, 39);
    AvalancheIs(0x1d0a47483b37cc24);
    Shift33(0x1d0a47483b37cc24);
    Shift29(0x5f0214beaa126880);
    Shift32(0xfbcea83c71f923cd);
  }
}
