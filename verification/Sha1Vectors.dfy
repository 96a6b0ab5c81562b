/**
 The digests that the standard gives for "abc" and for the empty message, computed by the definition
 in Sha1; and what the round constants are.
 */
module Sha1Vectors {
  import opened Arith
  import opened Sha1

  // ---------------------------------------------------------------- the round constants

  /** k is the integer part of 2^30 times the root of c. */
  predicate IsRootOf(k: nat, c: nat)
  {
    k * k <= c * 0x1000_0000_0000_0000 < (k + 1) * (k + 1)
  }

  lemma Constants(t: nat)
    requires t < 80
    ensures IsRootOf(K(t) as nat, if t < 20 then 2 else if t < 40 then 3 else if t < 60 then 5 else 10)
  {
    assert 0x5A827999 as word as nat == 0x5A827999;
    assert 0x6ED9EBA1 as word as nat == 0x6ED9EBA1;
    assert 0x8F1BBCDC as word as nat == 0x8F1BBCDC;
    assert 0xCA62C1D6 as word as nat == 0xCA62C1D6;
  }

  // ---------------------------------------------------------------- steps of the computation

  /** Sixteen consecutive words of the schedule. */
  ghost predicate Window(block: seq<octet>, t: nat,
                        w0: word, w1: word, w2: word, w3: word, w4: word, w5: word, w6: word, w7: word, w8: word,
                        w9: word, w10: word, w11: word, w12: word, w13: word, w14: word, w15: word)
  {
    && |block| == 64
    && Schedule(block, t + 0) == w0 && Schedule(block, t + 1) == w1
    && Schedule(block, t + 2) == w2 && Schedule(block, t + 3) == w3
    && Schedule(block, t + 4) == w4 && Schedule(block, t + 5) == w5
    && Schedule(block, t + 6) == w6 && Schedule(block, t + 7) == w7
    && Schedule(block, t + 8) == w8 && Schedule(block, t + 9) == w9
    && Schedule(block, t + 10) == w10 && Schedule(block, t + 11) == w11
    && Schedule(block, t + 12) == w12 && Schedule(block, t + 13) == w13
    && Schedule(block, t + 14) == w14 && Schedule(block, t + 15) == w15
  }

  /** The next sixteen, from values. */
  lemma SixteenWords(block: seq<octet>, t: nat,
                     w0: word, w1: word, w2: word, w3: word, w4: word, w5: word, w6: word, w7: word, w8: word,
                     w9: word, w10: word, w11: word, w12: word, w13: word, w14: word, w15: word, v0: word, v1: word,
                     v2: word, v3: word, v4: word, v5: word, v6: word, v7: word, v8: word, v9: word, v10: word,
                     v11: word, v12: word, v13: word, v14: word, v15: word)
    requires Window(block, t, w0, w1, w2, w3, w4, w5, w6, w7, w8, w9, w10, w11, w12, w13, w14, w15)
    requires v0 == Mix(w13, w8, w2, w0) && v1 == Mix(w14, w9, w3, w1)
    requires v2 == Mix(w15, w10, w4, w2) && v3 == Mix(v0, w11, w5, w3)
    requires v4 == Mix(v1, w12, w6, w4) && v5 == Mix(v2, w13, w7, w5)
    requires v6 == Mix(v3, w14, w8, w6) && v7 == Mix(v4, w15, w9, w7)
    requires v8 == Mix(v5, v0, w10, w8) && v9 == Mix(v6, v1, w11, w9)
    requires v10 == Mix(v7, v2, w12, w10) && v11 == Mix(v8, v3, w13, w11)
    requires v12 == Mix(v9, v4, w14, w12) && v13 == Mix(v10, v5, w15, w13)
    requires v14 == Mix(v11, v6, v0, w14) && v15 == Mix(v12, v7, v1, w15)
    ensures Window(block, t + 16, v0, v1, v2, v3, v4, v5, v6, v7, v8, v9, v10, v11, v12, v13, v14, v15)
  {
    hide Mix;
    hide Schedule;
    WordIs(block, t + 16);
    WordIs(block, t + 17);
    WordIs(block, t + 18);
    WordIs(block, t + 19);
    WordIs(block, t + 20);
    WordIs(block, t + 21);
    WordIs(block, t + 22);
    WordIs(block, t + 23);
    WordIs(block, t + 24);
    WordIs(block, t + 25);
    WordIs(block, t + 26);
    WordIs(block, t + 27);
    WordIs(block, t + 28);
    WordIs(block, t + 29);
    WordIs(block, t + 30);
    WordIs(block, t + 31);
  }

  lemma WordIs(block: seq<octet>, t: nat)
    requires |block| == 64 && t >= 16
    ensures Schedule(block, t)
         == Mix(Schedule(block, t - 3), Schedule(block, t - 8), Schedule(block, t - 14), Schedule(block, t - 16))
  {
  }

  /** What a round adds up. */
  function Sum(t: nat, a: word, b: word, c: word, d: word, e: word, w: word): word
  {
    Add5(RotL(5, a), F(t, b, c, d), e, K(t), w)
  }

  lemma OneRound(block: seq<octet>, t: nat, a: word, b: word, c: word, d: word, e: word, w: word, x: word)
    requires |block| == 64 && Rounds(H0, block, t) == Hash(a, b, c, d, e) && Schedule(block, t) == w
    requires x == Sum(t, a, b, c, d, e, w)
    ensures Rounds(H0, block, t + 1) == Hash(x, a, RotL(30, b), c, d)
  {
    hide Schedule;
  }

  /** Five rounds, from values, with the sums v to z. */
  lemma FiveRounds(block: seq<octet>, t: nat, a: word, b: word, c: word, d: word, e: word,
                   p: word, q: word, r: word, s: word, u: word, v: word, w: word, x: word, y: word, z: word)
    requires |block| == 64 && Rounds(H0, block, t) == Hash(a, b, c, d, e)
    requires Schedule(block, t) == p && Schedule(block, t + 1) == q && Schedule(block, t + 2) == r
    requires Schedule(block, t + 3) == s && Schedule(block, t + 4) == u
    requires v == Sum(t, a, b, c, d, e, p)
    requires w == Sum(t + 1, v, a, RotL(30, b), c, d, q)
    requires x == Sum(t + 2, w, v, RotL(30, a), RotL(30, b), c, r)
    requires y == Sum(t + 3, x, w, RotL(30, v), RotL(30, a), RotL(30, b), s)
    requires z == Sum(t + 4, y, x, RotL(30, w), RotL(30, v), RotL(30, a), u)
    ensures Rounds(H0, block, t + 5) == Hash(z, y, RotL(30, x), RotL(30, w), RotL(30, v))
  {
    hide Schedule;
    hide Rounds;
    hide Sum;
    OneRound(block, t, a, b, c, d, e, p, v);
    OneRound(block, t + 1, v, a, RotL(30, b), c, d, q, w);
    OneRound(block, t + 2, w, v, RotL(30, a), RotL(30, b), c, r, x);
    OneRound(block, t + 3, x, w, RotL(30, v), RotL(30, a), RotL(30, b), s, y);
    OneRound(block, t + 4, y, x, RotL(30, w), RotL(30, v), RotL(30, a), u, z);
  }

  lemma NoRounds(block: seq<octet>)
    requires |block| == 64
    ensures Rounds(H0, block, 0) == H0
  {
  }

  // ---------------------------------------------------------------- "abc"

  lemma AbcWords(block: seq<octet>)
    requires Window(block, 0, 0x61626380, 0x00000000, 0x00000000, 0x00000000, 0x00000000, 0x00000000, 0x00000000,
                    0x00000000, 0x00000000, 0x00000000, 0x00000000, 0x00000000, 0x00000000, 0x00000000, 0x00000000,
                    0x00000018)
    ensures Window(block, 16, 0xC2C4C700, 0x00000000, 0x00000030, 0x85898E01, 0x00000000, 0x00000060, 0x0B131C03,
                   0x00000030, 0x85898EC1, 0x16263806, 0x00000000, 0x00000180, 0x2C4C700C, 0x000000F0, 0x93AFB507,
                   0x5898E048)
    ensures Window(block, 32, 0x8E9A9202, 0x00000600, 0xB131C0F0, 0x16263BC6, 0x4EBED41E, 0x626380A1, 0x16263806,
                   0x000018C0, 0xD2E138C4, 0x00000F00, 0x3AFB5079, 0x898E04E5, 0xE2BA3C2B, 0x000060C0, 0x053A37CD,
                   0x74458547)
    ensures Window(block, 48, 0xDA9415ED, 0x26380A16, 0x626383A1, 0x4EBF54DE, 0x3835B44B, 0x0000F600, 0x1E84C7A3,
                   0x98E04D98, 0x651D16A0, 0x62658CA1, 0x458544D6, 0x44584CB7, 0x7BA06619, 0x6380AEA2, 0x0AE55269,
                   0x627B49A1)
    ensures Window(block, 64, 0x7CD45C9D, 0x000F0000, 0xFB50753A, 0xEC6765E8, 0xBA3C2BE2, 0x0060C000, 0x3A37CD05,
                   0x458546F4, 0xB8599DD6, 0x380A1A26, 0x01E02203, 0xE7CC3456, 0xE6E60B69, 0x00F60A00, 0x5795EF4F,
                   0x822E0879)
  {
    hide Schedule;
    hide Window;
    SixteenWords(block, 0, 0x61626380, 0x00000000, 0x00000000, 0x00000000, 0x00000000, 0x00000000, 0x00000000,
                 0x00000000, 0x00000000, 0x00000000, 0x00000000, 0x00000000, 0x00000000, 0x00000000, 0x00000000,
                 0x00000018, 0xC2C4C700, 0x00000000, 0x00000030, 0x85898E01, 0x00000000, 0x00000060, 0x0B131C03,
                 0x00000030, 0x85898EC1, 0x16263806, 0x00000000, 0x00000180, 0x2C4C700C, 0x000000F0, 0x93AFB507,
                 0x5898E048);
    SixteenWords(block, 16, 0xC2C4C700, 0x00000000, 0x00000030, 0x85898E01, 0x00000000, 0x00000060, 0x0B131C03,
                 0x00000030, 0x85898EC1, 0x16263806, 0x00000000, 0x00000180, 0x2C4C700C, 0x000000F0, 0x93AFB507,
                 0x5898E048, 0x8E9A9202, 0x00000600, 0xB131C0F0, 0x16263BC6, 0x4EBED41E, 0x626380A1, 0x16263806,
                 0x000018C0, 0xD2E138C4, 0x00000F00, 0x3AFB5079, 0x898E04E5, 0xE2BA3C2B, 0x000060C0, 0x053A37CD,
                 0x74458547);
    SixteenWords(block, 32, 0x8E9A9202, 0x00000600, 0xB131C0F0, 0x16263BC6, 0x4EBED41E, 0x626380A1, 0x16263806,
                 0x000018C0, 0xD2E138C4, 0x00000F00, 0x3AFB5079, 0x898E04E5, 0xE2BA3C2B, 0x000060C0, 0x053A37CD,
                 0x74458547, 0xDA9415ED, 0x26380A16, 0x626383A1, 0x4EBF54DE, 0x3835B44B, 0x0000F600, 0x1E84C7A3,
                 0x98E04D98, 0x651D16A0, 0x62658CA1, 0x458544D6, 0x44584CB7, 0x7BA06619, 0x6380AEA2, 0x0AE55269,
                 0x627B49A1);
    SixteenWords(block, 48, 0xDA9415ED, 0x26380A16, 0x626383A1, 0x4EBF54DE, 0x3835B44B, 0x0000F600, 0x1E84C7A3,
                 0x98E04D98, 0x651D16A0, 0x62658CA1, 0x458544D6, 0x44584CB7, 0x7BA06619, 0x6380AEA2, 0x0AE55269,
                 0x627B49A1, 0x7CD45C9D, 0x000F0000, 0xFB50753A, 0xEC6765E8, 0xBA3C2BE2, 0x0060C000, 0x3A37CD05,
                 0x458546F4, 0xB8599DD6, 0x380A1A26, 0x01E02203, 0xE7CC3456, 0xE6E60B69, 0x00F60A00, 0x5795EF4F,
                 0x822E0879);
  }

  lemma AbcRounds(block: seq<octet>)
    requires Window(block, 0, 0x61626380, 0x00000000, 0x00000000, 0x00000000, 0x00000000, 0x00000000, 0x00000000,
                    0x00000000, 0x00000000, 0x00000000, 0x00000000, 0x00000000, 0x00000000, 0x00000000, 0x00000000,
                    0x00000018)
    ensures Rounds(H0, block, 80) == Hash(0x42541B35, 0x5738D5E1, 0x21834873, 0x681E6DF6, 0xD8FDF6AD)
  {
    hide Schedule;
    hide Rounds;
    AbcWords(block);
    NoRounds(block);
    FiveRounds(block, 0, 0x67452301, 0xEFCDAB89, 0x98BADCFE, 0x10325476, 0xC3D2E1F0, 0x61626380, 0x00000000,
               0x00000000, 0x00000000, 0x00000000, 0x0116FC33, 0x8990536D, 0xA1390F08, 0xCDD8E11B, 0xCFD499DE);
    FiveRounds(block, 5, 0xCFD499DE, 0xCDD8E11B, 0x284E43C2, 0x626414DB, 0xC045BF0C, 0x00000000, 0x00000000,
               0x00000000, 0x00000000, 0x00000000, 0x3FC7CA40, 0x993E30C1, 0x9E8C07D4, 0x4B6AE328, 0x8351F929);
    FiveRounds(block, 10, 0x8351F929, 0x4B6AE328, 0x27A301F5, 0x664F8C30, 0x0FF1F290, 0x00000000, 0x00000000,
               0x00000000, 0x00000000, 0x00000000, 0xFBDA9E89, 0x63188FE4, 0x4607B664, 0x9128F695, 0x196BEE77);
    FiveRounds(block, 15, 0x196BEE77, 0x9128F695, 0x1181ED99, 0x18C623F9, 0x7EF6A7A2, 0x00000018, 0xC2C4C700,
               0x00000000, 0x00000030, 0x85898E01, 0x20BDD62F, 0x4E925823, 0x82AA6728, 0xDC64901D, 0xFD9E1D7D);
    FiveRounds(block, 20, 0xFD9E1D7D, 0xDC64901D, 0x20AA99CA, 0xD3A49608, 0xC82F758B, 0x00000000, 0x00000060,
               0x0B131C03, 0x00000030, 0x85898EC1, 0x1A37B0CA, 0x33A23BFC, 0x21283486, 0xD541F12D, 0xC7567DC6);
    FiveRounds(block, 25, 0xC7567DC6, 0xD541F12D, 0x884A0D21, 0x0CE88EFF, 0x868DEC32, 0x16263806, 0x00000000,
               0x00000180, 0x2C4C700C, 0x000000F0, 0x48413BA4, 0xBE35FBD5, 0x4AA84D97, 0x8370B52E, 0xC5FBAF5D);
    FiveRounds(block, 30, 0xC5FBAF5D, 0x8370B52E, 0xD2AA1365, 0x6F8D7EF5, 0x12104EE9, 0x93AFB507, 0x5898E048,
               0x8E9A9202, 0x00000600, 0xB131C0F0, 0x1267B407, 0x3B845D33, 0x046FAA0A, 0x2C0EBC11, 0x21796AD4);
    FiveRounds(block, 35, 0x21796AD4, 0x2C0EBC11, 0x811BEA82, 0xCEE1174C, 0xC499ED01, 0x16263BC6, 0x4EBED41E,
               0x626380A1, 0x16263806, 0x000018C0, 0xDCBBB0CB, 0x0F511FD8, 0xDC63973F, 0x4C986405, 0x32DE1CBA);
    FiveRounds(block, 40, 0x32DE1CBA, 0x4C986405, 0xF718E5CF, 0x03D447F6, 0xF72EEC32, 0xD2E138C4, 0x00000F00,
               0x3AFB5079, 0x898E04E5, 0xE2BA3C2B, 0xFC87DEDF, 0x970A0D5C, 0x7F193DC5, 0xEE1B1AAF, 0x40F28E09);
    FiveRounds(block, 45, 0x40F28E09, 0xEE1B1AAF, 0x5FC64F71, 0x25C28357, 0xFF21F7B7, 0x000060C0, 0x053A37CD,
               0x74458547, 0xDA9415ED, 0x26380A16, 0x1C51E1F2, 0xA01B846C, 0xBEAD02CA, 0xBAF39337, 0x120731C5);
    FiveRounds(block, 50, 0x120731C5, 0xBAF39337, 0xAFAB40B2, 0x2806E11B, 0x8714787C, 0x626383A1, 0x4EBF54DE,
               0x3835B44B, 0x0000F600, 0x1E84C7A3, 0x641DB2CE, 0x3847AD66, 0xE490436D, 0x27E9F1D8, 0x7B71F76D);
    FiveRounds(block, 55, 0x7B71F76D, 0x27E9F1D8, 0x792410DB, 0x8E11EB59, 0x99076CB3, 0x98E04D98, 0x651D16A0,
               0x62658CA1, 0x458544D6, 0x44584CB7, 0x5E6456AF, 0xC846093F, 0xD262FF50, 0x09D785FD, 0x3F52DE5A);
    FiveRounds(block, 60, 0x3F52DE5A, 0x09D785FD, 0x3498BFD4, 0xF211824F, 0xD79915AB, 0x7BA06619, 0x6380AEA2,
               0x0AE55269, 0x627B49A1, 0x7CD45C9D, 0xD756C147, 0x548C9CB2, 0xB66C020B, 0x6B61C9E1, 0x19DFA7AC);
    FiveRounds(block, 65, 0x19DFA7AC, 0x6B61C9E1, 0xED9B0082, 0x9523272C, 0xF5D5B051, 0x000F0000, 0xFB50753A,
               0xEC6765E8, 0xBA3C2BE2, 0x0060C000, 0x101655F9, 0x0C3DF2B4, 0x78DD4D2B, 0x497093C0, 0x3F2588C2);
    FiveRounds(block, 70, 0x3F2588C2, 0x497093C0, 0xDE37534A, 0x030F7CAD, 0x4405957E, 0x3A37CD05, 0x458546F4,
               0xB8599DD6, 0x380A1A26, 0x01E02203, 0xC199F8C7, 0x39859DE7, 0xEDB42DE4, 0x11793F6F, 0x5EE76897);
    FiveRounds(block, 75, 0x5EE76897, 0x11793F6F, 0x3B6D0B79, 0xCE616779, 0xF0667E31, 0xE7CC3456, 0xE6E60B69,
               0x00F60A00, 0x5795EF4F, 0x822E0879, 0x63F7DAB7, 0xA079B7D9, 0x860D21CC, 0x5738D5E1, 0x42541B35);
  }

  // ---------------------------------------------------------------- the empty message

  lemma EmptyWords(block: seq<octet>)
    requires Window(block, 0, 0x80000000, 0x00000000, 0x00000000, 0x00000000, 0x00000000, 0x00000000, 0x00000000,
                    0x00000000, 0x00000000, 0x00000000, 0x00000000, 0x00000000, 0x00000000, 0x00000000, 0x00000000,
                    0x00000000)
    ensures Window(block, 16, 0x00000001, 0x00000000, 0x00000000, 0x00000002, 0x00000000, 0x00000000, 0x00000004,
                   0x00000000, 0x00000002, 0x00000008, 0x00000000, 0x00000000, 0x00000010, 0x00000000, 0x0000000A,
                   0x00000020)
    ensures Window(block, 32, 0x00000006, 0x00000000, 0x00000040, 0x00000008, 0x00000028, 0x00000080, 0x00000008,
                   0x00000000, 0x00000108, 0x00000000, 0x000000A0, 0x00000200, 0x00000064, 0x00000000, 0x00000408,
                   0x00000088)
    ensures Window(block, 48, 0x0000029C, 0x00000800, 0x00000080, 0x00000028, 0x00001088, 0x00000000, 0x00000A40,
                   0x00002000, 0x00000668, 0x00000080, 0x00004088, 0x00000880, 0x000028C8, 0x00008000, 0x000008A8,
                   0x00000080)
    ensures Window(block, 64, 0x000108E8, 0x00000000, 0x0000A000, 0x00020080, 0x00006400, 0x00000000, 0x00040800,
                   0x00008800, 0x00029C10, 0x00080000, 0x00008080, 0x00002820, 0x001088C0, 0x00000000, 0x000A40C0,
                   0x00200080)
  {
    hide Schedule;
    hide Window;
    SixteenWords(block, 0, 0x80000000, 0x00000000, 0x00000000, 0x00000000, 0x00000000, 0x00000000, 0x00000000,
                 0x00000000, 0x00000000, 0x00000000, 0x00000000, 0x00000000, 0x00000000, 0x00000000, 0x00000000,
                 0x00000000, 0x00000001, 0x00000000, 0x00000000, 0x00000002, 0x00000000, 0x00000000, 0x00000004,
                 0x00000000, 0x00000002, 0x00000008, 0x00000000, 0x00000000, 0x00000010, 0x00000000, 0x0000000A,
                 0x00000020);
    SixteenWords(block, 16, 0x00000001, 0x00000000, 0x00000000, 0x00000002, 0x00000000, 0x00000000, 0x00000004,
                 0x00000000, 0x00000002, 0x00000008, 0x00000000, 0x00000000, 0x00000010, 0x00000000, 0x0000000A,
                 0x00000020, 0x00000006, 0x00000000, 0x00000040, 0x00000008, 0x00000028, 0x00000080, 0x00000008,
                 0x00000000, 0x00000108, 0x00000000, 0x000000A0, 0x00000200, 0x00000064, 0x00000000, 0x00000408,
                 0x00000088);
    SixteenWords(block, 32, 0x00000006, 0x00000000, 0x00000040, 0x00000008, 0x00000028, 0x00000080, 0x00000008,
                 0x00000000, 0x00000108, 0x00000000, 0x000000A0, 0x00000200, 0x00000064, 0x00000000, 0x00000408,
                 0x00000088, 0x0000029C, 0x00000800, 0x00000080, 0x00000028, 0x00001088, 0x00000000, 0x00000A40,
                 0x00002000, 0x00000668, 0x00000080, 0x00004088, 0x00000880, 0x000028C8, 0x00008000, 0x000008A8,
                 0x00000080);
    SixteenWords(block, 48, 0x0000029C, 0x00000800, 0x00000080, 0x00000028, 0x00001088, 0x00000000, 0x00000A40,
                 0x00002000, 0x00000668, 0x00000080, 0x00004088, 0x00000880, 0x000028C8, 0x00008000, 0x000008A8,
                 0x00000080, 0x000108E8, 0x00000000, 0x0000A000, 0x00020080, 0x00006400, 0x00000000, 0x00040800,
                 0x00008800, 0x00029C10, 0x00080000, 0x00008080, 0x00002820, 0x001088C0, 0x00000000, 0x000A40C0,
                 0x00200080);
  }

  lemma EmptyRounds(block: seq<octet>)
    requires Window(block, 0, 0x80000000, 0x00000000, 0x00000000, 0x00000000, 0x00000000, 0x00000000, 0x00000000,
                    0x00000000, 0x00000000, 0x00000000, 0x00000000, 0x00000000, 0x00000000, 0x00000000, 0x00000000,
                    0x00000000)
    ensures Rounds(H0, block, 80) == Hash(0x72F480ED, 0x6E9D9F84, 0x999AE2F1, 0x852DC41A, 0xEC052519)
  {
    hide Schedule;
    hide Rounds;
    EmptyWords(block);
    NoRounds(block);
    FiveRounds(block, 0, 0x67452301, 0xEFCDAB89, 0x98BADCFE, 0x10325476, 0xC3D2E1F0, 0x80000000, 0x00000000,
               0x00000000, 0x00000000, 0x00000000, 0x1FB498B3, 0x5D43E370, 0x158D2F62, 0xCDECFB5D, 0x4953565E);
    FiveRounds(block, 5, 0x4953565E, 0xCDECFB5D, 0x85634BD8, 0x1750F8DC, 0xC7ED262C, 0x00000000, 0x00000000,
               0x00000000, 0x00000000, 0x00000000, 0xE44AB766, 0xC09D7F27, 0x87074800, 0x41376611, 0xCBDBFF31);
    FiveRounds(block, 10, 0xCBDBFF31, 0x41376611, 0x21C1D200, 0xF0275FC9, 0xB912ADD9, 0x00000000, 0x00000000,
               0x00000000, 0x00000000, 0x00000000, 0x40166973, 0xADC0E0CA, 0x84C05EB2, 0x1512C8B9, 0x40182905);
    FiveRounds(block, 15, 0x40182905, 0x1512C8B9, 0xA13017AC, 0xAB703832, 0xD0059A5C, 0x00000000, 0x00000001,
               0x00000000, 0x00000000, 0x00000002, 0xD8FD6547, 0x06BF9173, 0x28A9520E, 0x0B3088DD, 0xE758E8DA);
    FiveRounds(block, 20, 0xE758E8DA, 0x0B3088DD, 0x8A2A5483, 0xC1AFE45C, 0xF63F5951, 0x00000000, 0x00000000,
               0x00000004, 0x00000000, 0x00000002, 0x90EB9850, 0x7DBB787D, 0x1C64D028, 0x1E97B73A, 0x62D7F53F);
    FiveRounds(block, 25, 0x62D7F53F, 0x1E97B73A, 0x0719340A, 0x5F6EDE1F, 0x243AE614, 0x00000008, 0x00000000,
               0x00000000, 0x00000010, 0x00000000, 0x34F3D6D8, 0x4F2ED1C1, 0xC7B11E2D, 0x874B786F, 0xCA4556CB);
    FiveRounds(block, 30, 0xCA4556CB, 0x874B786F, 0x71EC478B, 0x53CBB470, 0x0D3CF5B6, 0x0000000A, 0x00000020,
               0x00000006, 0x00000000, 0x00000040, 0x6A2E466E, 0x62EA3D59, 0xB77BAC25, 0x4B1347E2, 0x391EF0C4);
    FiveRounds(block, 35, 0x391EF0C4, 0x4B1347E2, 0x6DDEEB09, 0x58BA8F56, 0x9A8B919B, 0x00000008, 0x00000028,
               0x00000080, 0x00000008, 0x00000000, 0xABBAB988, 0x04F07669, 0xB201788B, 0x62273351, 0x9BDBDD71);
    FiveRounds(block, 40, 0x9BDBDD71, 0x62273351, 0xEC805E22, 0x413C1D9A, 0x2AEEAE62, 0x00000108, 0x00000000,
               0x000000A0, 0x00000200, 0x00000064, 0x95AA398B, 0x5E28E858, 0x95642485, 0xFA950ABA, 0xDE1E3A01);
    FiveRounds(block, 45, 0xDE1E3A01, 0xFA950ABA, 0x65590921, 0x178A3A16, 0xE56A8E62, 0x00000000, 0x00000408,
               0x00000088, 0x0000029C, 0x00000800, 0xAFE695AB, 0xA195BA90, 0xE6D39F43, 0x0BCA9922, 0x6AE826FF);
    FiveRounds(block, 50, 0x6AE826FF, 0x0BCA9922, 0xF9B4E7D0, 0x28656EA4, 0xEBF9A56A, 0x00000080, 0x00000028,
               0x00001088, 0x00000000, 0x00000A40, 0x01FF3253, 0xE2581CE0, 0x56CE73AB, 0xAE56E542, 0x8590C0E8);
    FiveRounds(block, 55, 0x8590C0E8, 0xAE56E542, 0xD5B39CEA, 0x38960738, 0xC07FCC94, 0x00002000, 0x00000668,
               0x00000080, 0x00004088, 0x00000880, 0xBE4A4BEA, 0x168CE0BB, 0xE1AFAB22, 0x982BCBCA, 0x9B9D2913);
    FiveRounds(block, 60, 0x9B9D2913, 0x982BCBCA, 0xB86BEAC8, 0xC5A3382E, 0xAF9292FA, 0x000028C8, 0x00008000,
               0x000008A8, 0x00000080, 0x000108E8, 0xD37DB937, 0x85B9D227, 0xCD98FBB7, 0xBB0F226F, 0xEB59446C);
    FiveRounds(block, 65, 0xEB59446C, 0xBB0F226F, 0xF3663EED, 0xE16E7489, 0xF4DF6E4D, 0x00000000, 0x0000A000,
               0x00020080, 0x00006400, 0x00000000, 0xD37225CB, 0x111341F3, 0xE79AFBF0, 0x8BA00627, 0x503C7AE0);
    FiveRounds(block, 70, 0x503C7AE0, 0x8BA00627, 0x39E6BEFC, 0xC444D07C, 0xF4DC8972, 0x00040800, 0x00008800,
               0x00029C10, 0x00080000, 0x00008080, 0x3CD517F9, 0xB47DDF0E, 0x5E3A0780, 0x63DB37B2, 0x15E98D17);
    FiveRounds(block, 75, 0x15E98D17, 0x63DB37B2, 0x178E81E0, 0xAD1F77C3, 0x4F3545FE, 0x00002820, 0x001088C0,
               0x00000000, 0x000A40C0, 0x00200080, 0xB0149467, 0x14B7106A, 0x666B8BC6, 0x6E9D9F84, 0x72F480ED);
  }

  // ---------------------------------------------------------------- the digests

  lemma LengthByteIs(bits: nat, i: nat)
    requires i < 8
    ensures Length64(bits)[i] == (bits / Pow(256, 7 - i) % 256) as octet
  {
    hide Pow;
  }

  lemma SmallLength(bits: nat, i: nat)
    requires bits < 256 && i < 8
    ensures bits / Pow(256, 7 - i) % 256 == if i < 7 then 0 else bits
  {
    PowIs(7 - i);
    hide Pow;
    if i < 7 {
      ModIs(bits, Pow(256, 7 - i), 0, bits);
    }
  }

  lemma PowIs(k: nat)
    ensures if k == 0 then Pow(256, k) == 1 else Pow(256, k) >= 256
  {
    if k > 1 {
      PowIs(k - 1);
    }
  }

  /** The padding of a short message, given its length in bits. */
  lemma PaddedShort(m: seq<octet>, last: octet)
    requires |m| <= 3 && (8 * |m|) as octet == last
    ensures Pad(m) == m + [0x80] + seq(62 - |m|, _ => 0) + [last]
  {
    hide Pow;
    hide Length64;
    forall i: nat | i < 8
      ensures Length64(8 * |m|)[i] == if i < 7 then 0 else last
    {
      LengthByteIs(8 * |m|, i);
      SmallLength(8 * |m|, i);
    }
    assert 8 * |m| % TWO_64 == 8 * |m|;
  }

  lemma OneBlock(block: seq<octet>)
    requires |block| == 64
    ensures Fold(H0, block) == Compress(H0, block)
  {
    hide Compress;
    assert block[..64] == block && block[64..] == [];
  }

  /** The words of such a block. */
  lemma FirstWords(block: seq<octet>, last: octet)
    requires |block| == 64 && (forall i | 4 <= i < 63 :: block[i] == 0) && block[63] == last
    ensures Schedule(block, 0) == WordOf(block[0], block[1], block[2], block[3])
    ensures forall t | 1 <= t < 15 :: Schedule(block, t) == WordOf(0, 0, 0, 0)
    ensures Schedule(block, 15) == WordOf(0, 0, 0, last)
  {
    hide WordOf;
  }

  /** The digest, from the state after the rounds. */
  lemma DigestFrom(m: seq<octet>, a: word, b: word, c: word, d: word, e: word,
                   v: word, w: word, x: word, y: word, z: word)
    requires |m| < 32 && |Pad(m)| == 64 && Rounds(H0, Pad(m), 80) == Hash(a, b, c, d, e)
    requires v == 0x67452301 + a && w == 0xEFCDAB89 + b && x == 0x98BADCFE + c
    requires y == 0x10325476 + d && z == 0xC3D2E1F0 + e
    ensures Sha1.Sha1(m) == WordBytes(v) + WordBytes(w) + WordBytes(x) + WordBytes(y) + WordBytes(z)
  {
    hide WordBytes;
    hide Rounds;
    hide Pad;
    OneBlock(Pad(m));
    FiveWords(v, w, x, y, z);
  }

  lemma FiveWords(a: word, b: word, c: word, d: word, e: word)
    ensures WordsBytes([a, b, c, d, e])
         == WordBytes(a) + WordBytes(b) + WordBytes(c) + WordBytes(d) + WordBytes(e)
  {
    hide WordBytes;
    hide WordsBytes;
    NoWords();
    MoreWords([], a);
    MoreWords([a], b);
    MoreWords([a, b], c);
    MoreWords([a, b, c], d);
    MoreWords([a, b, c, d], e);
    assert [] + WordBytes(a) == WordBytes(a);
    assert [a] + [b] == [a, b] && [a, b] + [c] == [a, b, c] && [a, b, c] + [d] == [a, b, c, d];
    assert [] + [a] == [a] && [a, b, c, d] + [e] == [a, b, c, d, e];
  }

  lemma NoWords()
    ensures WordsBytes([]) == []
  {
  }

  lemma MoreWords(ws: seq<word>, w: word)
    ensures WordsBytes(ws + [w]) == WordsBytes(ws) + WordBytes(w)
  {
    assert (ws + [w])[..|ws|] == ws;
  }

  lemma BytesOf(w: word, b0: octet, b1: octet, b2: octet, b3: octet)
    requires b0 == (w >> 24) as octet && b1 == ((w >> 16) & 0xff) as octet
    requires b2 == ((w >> 8) & 0xff) as octet && b3 == (w & 0xff) as octet
    ensures WordBytes(w) == [b0, b1, b2, b3]
  {
  }

  lemma WordFrom(b0: octet, b1: octet, b2: octet, b3: octet, w: word)
    requires w == ((b0 as word) << 24) | ((b1 as word) << 16) | ((b2 as word) << 8) | (b3 as word)
    ensures WordOf(b0, b1, b2, b3) == w
  {
  }

  lemma AbcBlock()
    ensures |Pad([0x61, 0x62, 0x63])| == 64
    ensures Window(Pad([0x61, 0x62, 0x63]), 0, 0x61626380, 0x00000000, 0x00000000, 0x00000000, 0x00000000, 0x00000000,
                   0x00000000, 0x00000000, 0x00000000, 0x00000000, 0x00000000, 0x00000000, 0x00000000, 0x00000000,
                   0x00000000, 0x00000018)
  {
    hide Pad;
    hide WordOf;
    hide Schedule;
    var m: seq<octet> := [0x61, 0x62, 0x63];
    PaddedShort(m, 0x18);
    FirstWords(Pad(m), 0x18);
    WordFrom(0x61, 0x62, 0x63, 0x80, 0x61626380);
    WordFrom(0x00, 0x00, 0x00, 0x00, 0x00000000);
    WordFrom(0x00, 0x00, 0x00, 0x18, 0x00000018);
  }

  /** The digest of "abc". */
  lemma AbcDigest()
    ensures Sha1.Sha1([0x61, 0x62, 0x63])
         == [0xA9, 0x99, 0x3E, 0x36, 0x47, 0x06, 0x81, 0x6A, 0xBA, 0x3E,
             0x25, 0x71, 0x78, 0x50, 0xC2, 0x6C, 0x9C, 0xD0, 0xD8, 0x9D]
  {
    hide Rounds;
    hide Schedule;
    hide Pad;
    hide WordBytes;
    hide Sha1.Sha1;
    hide WordOf;
    hide Window;
    var m: seq<octet> := [0x61, 0x62, 0x63];
    AbcBlock();
    AbcRounds(Pad(m));
    DigestFrom(m, 0x42541B35, 0x5738D5E1, 0x21834873, 0x681E6DF6, 0xD8FDF6AD, 0xA9993E36, 0x4706816A, 0xBA3E2571,
               0x7850C26C, 0x9CD0D89D);
    BytesOf(0xA9993E36, 0xA9, 0x99, 0x3E, 0x36);
    BytesOf(0x4706816A, 0x47, 0x06, 0x81, 0x6A);
    BytesOf(0xBA3E2571, 0xBA, 0x3E, 0x25, 0x71);
    BytesOf(0x7850C26C, 0x78, 0x50, 0xC2, 0x6C);
    BytesOf(0x9CD0D89D, 0x9C, 0xD0, 0xD8, 0x9D);
  }

  lemma EmptyBlock()
    ensures |Pad([])| == 64
    ensures Window(Pad([]), 0, 0x80000000, 0x00000000, 0x00000000, 0x00000000, 0x00000000, 0x00000000, 0x00000000,
                   0x00000000, 0x00000000, 0x00000000, 0x00000000, 0x00000000, 0x00000000, 0x00000000, 0x00000000,
                   0x00000000)
  {
    hide Pad;
    hide WordOf;
    hide Schedule;
    var m: seq<octet> := [];
    PaddedShort(m, 0x00);
    FirstWords(Pad(m), 0x00);
    WordFrom(0x80, 0x00, 0x00, 0x00, 0x80000000);
    WordFrom(0x00, 0x00, 0x00, 0x00, 0x00000000);
    WordFrom(0x00, 0x00, 0x00, 0x00, 0x00000000);
  }

  /** The digest of the empty message. */
  lemma EmptyDigest()
    ensures Sha1.Sha1([])
         == [0xDA, 0x39, 0xA3, 0xEE, 0x5E, 0x6B, 0x4B, 0x0D, 0x32, 0x55,
             0xBF, 0xEF, 0x95, 0x60, 0x18, 0x90, 0xAF, 0xD8, 0x07, 0x09]
  {
    hide Rounds;
    hide Schedule;
    hide Pad;
    hide WordBytes;
    hide Sha1.Sha1;
    hide WordOf;
    hide Window;
    var m: seq<octet> := [];
    EmptyBlock();
    EmptyRounds(Pad(m));
    DigestFrom(m, 0x72F480ED, 0x6E9D9F84, 0x999AE2F1, 0x852DC41A, 0xEC052519, 0xDA39A3EE, 0x5E6B4B0D, 0x3255BFEF,
               0x95601890, 0xAFD80709);
    BytesOf(0xDA39A3EE, 0xDA, 0x39, 0xA3, 0xEE);
    BytesOf(0x5E6B4B0D, 0x5E, 0x6B, 0x4B, 0x0D);
    BytesOf(0x3255BFEF, 0x32, 0x55, 0xBF, 0xEF);
    BytesOf(0x95601890, 0x95, 0x60, 0x18, 0x90);
    BytesOf(0xAFD80709, 0xAF, 0xD8, 0x07, 0x09);
  }
}
