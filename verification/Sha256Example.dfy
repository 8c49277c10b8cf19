/** The digest of "abc" (the one-block example published with FIPS 180-4), word by word and round by round, on plain
    numbers: what sources/utility/sha256.c must give for it, however the functions that compute it are written. */
module Sha256Example {
  import opened Words
  import opened Sha256Spec
  import opened Sha256Words

  // --- the facts of a step, quantified so that they are not unfolded where they are only passed on ---------

  /** The round constant of round t. */
  ghost predicate ConstantIs(t: nat, c: word) {
    t < 64 && forall u :: u == t && u < 64 ==> K256[u] == c
  }

  /** The t-th word of the message schedule. */
  ghost predicate WordIs(b: block, t: nat, w: word) {
    t < 64 && forall u :: u == t && u < 64 ==> Schedule(b, u) == w
  }

  /** The working variables before round t. */
  ghost predicate StateIs(h: Registers, b: block, t: nat, r: Registers) {
    t <= 64 && forall u :: u == t && u <= 64 ==> Rounds(K256, h, b, u) == r
  }

  lemma FirstWord(b: block, t: nat, b0: byte, b1: byte, b2: byte, b3: byte)
    requires t < 16 && b[4 * t] == b0 && b[4 * t + 1] == b1 && b[4 * t + 2] == b2 && b[4 * t + 3] == b3
    ensures WordIs(b, t, Word(b0, b1, b2, b3))
  {
  }

  lemma NextWord(b: block, t: nat, w2: word, w7: word, w15: word, w16: word, w: word)
    requires 16 <= t < 64 && Extend(w2, w7, w15, w16) == w
    requires WordIs(b, t - 2, w2) && WordIs(b, t - 7, w7) && WordIs(b, t - 15, w15) && WordIs(b, t - 16, w16)
    ensures WordIs(b, t, w)
  {
    assert Schedule(b, t - 2) == w2 && Schedule(b, t - 7) == w7;
    assert Schedule(b, t - 15) == w15 && Schedule(b, t - 16) == w16;
    assert Schedule(b, t) == w;
  }

  /** One round: the registers move up by one, and a and e are new. */
  lemma NextState(h: Registers, b: block, t: nat, k: word, w: word, newA: word, newE: word,
                  ra: word, rb: word, rc: word, rd: word, re: word, rf: word, rg: word, rh: word)
    requires t < 64 && ConstantIs(t, k) && WordIs(b, t, w)
    requires StateIs(h, b, t, Registers(ra, rb, rc, rd, re, rf, rg, rh))
    requires Round(Registers(ra, rb, rc, rd, re, rf, rg, rh), k, w)
          == Registers(newA, ra, rb, rc, newE, re, rf, rg)
    ensures StateIs(h, b, t + 1, Registers(newA, ra, rb, rc, newE, re, rf, rg))
  {
    assert Rounds(K256, h, b, t) == Registers(ra, rb, rc, rd, re, rf, rg, rh);
    assert K256[t] == k && Schedule(b, t) == w;
    assert Rounds(K256, h, b, t + 1) == Registers(newA, ra, rb, rc, newE, re, rf, rg);
  }

  lemma Compressed(h: Registers, b: block, r: Registers, sum: Registers)
    requires StateIs(h, b, 64, r) && AddRegisters(h, r) == sum
    ensures Compress(K256, h, b) == sum
  {
    assert Rounds(K256, h, b, 64) == r;
  }

  // --- the round constants of section 4.2.2, one by one -----------------------------------------------------

  lemma Constants0()
    ensures ConstantIs(0, 0x428a2f98) && ConstantIs(1, 0x71374491)
    ensures ConstantIs(2, 0xb5c0fbcf) && ConstantIs(3, 0xe9b5dba5)
    ensures ConstantIs(4, 0x3956c25b) && ConstantIs(5, 0x59f111f1)
    ensures ConstantIs(6, 0x923f82a4) && ConstantIs(7, 0xab1c5ed5)
  {
  }

  lemma Constants8()
    ensures ConstantIs(8, 0xd807aa98) && ConstantIs(9, 0x12835b01)
    ensures ConstantIs(10, 0x243185be) && ConstantIs(11, 0x550c7dc3)
    ensures ConstantIs(12, 0x72be5d74) && ConstantIs(13, 0x80deb1fe)
    ensures ConstantIs(14, 0x9bdc06a7) && ConstantIs(15, 0xc19bf174)
  {
  }

  lemma Constants16()
    ensures ConstantIs(16, 0xe49b69c1) && ConstantIs(17, 0xefbe4786)
    ensures ConstantIs(18, 0x0fc19dc6) && ConstantIs(19, 0x240ca1cc)
    ensures ConstantIs(20, 0x2de92c6f) && ConstantIs(21, 0x4a7484aa)
    ensures ConstantIs(22, 0x5cb0a9dc) && ConstantIs(23, 0x76f988da)
  {
  }

  lemma Constants24()
    ensures ConstantIs(24, 0x983e5152) && ConstantIs(25, 0xa831c66d)
    ensures ConstantIs(26, 0xb00327c8) && ConstantIs(27, 0xbf597fc7)
    ensures ConstantIs(28, 0xc6e00bf3) && ConstantIs(29, 0xd5a79147)
    ensures ConstantIs(30, 0x06ca6351) && ConstantIs(31, 0x14292967)
  {
  }

  lemma Constants32()
    ensures ConstantIs(32, 0x27b70a85) && ConstantIs(33, 0x2e1b2138)
    ensures ConstantIs(34, 0x4d2c6dfc) && ConstantIs(35, 0x53380d13)
    ensures ConstantIs(36, 0x650a7354) && ConstantIs(37, 0x766a0abb)
    ensures ConstantIs(38, 0x81c2c92e) && ConstantIs(39, 0x92722c85)
  {
  }

  lemma Constants40()
    ensures ConstantIs(40, 0xa2bfe8a1) && ConstantIs(41, 0xa81a664b)
    ensures ConstantIs(42, 0xc24b8b70) && ConstantIs(43, 0xc76c51a3)
    ensures ConstantIs(44, 0xd192e819) && ConstantIs(45, 0xd6990624)
    ensures ConstantIs(46, 0xf40e3585) && ConstantIs(47, 0x106aa070)
  {
  }

  lemma Constants48()
    ensures ConstantIs(48, 0x19a4c116) && ConstantIs(49, 0x1e376c08)
    ensures ConstantIs(50, 0x2748774c) && ConstantIs(51, 0x34b0bcb5)
    ensures ConstantIs(52, 0x391c0cb3) && ConstantIs(53, 0x4ed8aa4a)
    ensures ConstantIs(54, 0x5b9cca4f) && ConstantIs(55, 0x682e6ff3)
  {
  }

  lemma Constants56()
    ensures ConstantIs(56, 0x748f82ee) && ConstantIs(57, 0x78a5636f)
    ensures ConstantIs(58, 0x84c87814) && ConstantIs(59, 0x8cc70208)
    ensures ConstantIs(60, 0x90befffa) && ConstantIs(61, 0xa4506ceb)
    ensures ConstantIs(62, 0xbef9a3f7) && ConstantIs(63, 0xc67178f2)
  {
  }

  // --- the message schedule of "abc" ------------------------------------------------------------------------

  /** The padded message: the end marker, zeros and the length of 24 bits. */
  function AbcBlock(): block { [0x61, 0x62, 0x63, 0x80] + Zeros(59) + [24] }

  lemma Words0(b: block)
    requires b == AbcBlock()
    ensures WordIs(b, 0, 0x61626380) && (forall t :: 1 <= t < 15 ==> WordIs(b, t, 0)) && WordIs(b, 15, 0x18)
  {
    FirstWord(b, 0, 0x61, 0x62, 0x63, 0x80);
    forall t | 1 <= t < 15
      ensures WordIs(b, t, 0)
    {
      FirstWord(b, t, 0, 0, 0, 0);
    }
    FirstWord(b, 15, 0, 0, 0, 24);
  }

  lemma Words16(b: block)
    requires b == AbcBlock()
    ensures WordIs(b, 16, 0x61626380) && WordIs(b, 17, 0x000f0000)
    ensures WordIs(b, 18, 0x7da86405) && WordIs(b, 19, 0x600003c6)
    ensures WordIs(b, 20, 0x3e9d7b78) && WordIs(b, 21, 0x0183fc00)
    ensures WordIs(b, 22, 0x12dcbfdb) && WordIs(b, 23, 0xe2e2c38e)
  {
    Words0(b);
    NextWord(b, 16, 0x00000000, 0x00000000, 0x00000000, 0x61626380, 0x61626380);
    NextWord(b, 17, 0x00000018, 0x00000000, 0x00000000, 0x00000000, 0x000f0000);
    NextWord(b, 18, 0x61626380, 0x00000000, 0x00000000, 0x00000000, 0x7da86405);
    NextWord(b, 19, 0x000f0000, 0x00000000, 0x00000000, 0x00000000, 0x600003c6);
    NextWord(b, 20, 0x7da86405, 0x00000000, 0x00000000, 0x00000000, 0x3e9d7b78);
    NextWord(b, 21, 0x600003c6, 0x00000000, 0x00000000, 0x00000000, 0x0183fc00);
    NextWord(b, 22, 0x3e9d7b78, 0x00000018, 0x00000000, 0x00000000, 0x12dcbfdb);
    NextWord(b, 23, 0x0183fc00, 0x61626380, 0x00000000, 0x00000000, 0xe2e2c38e);
  }

  lemma Words24(b: block)
    requires b == AbcBlock()
    ensures WordIs(b, 24, 0xc8215c1a) && WordIs(b, 25, 0xb73679a2)
    ensures WordIs(b, 26, 0xe5bc3909) && WordIs(b, 27, 0x32663c5b)
    ensures WordIs(b, 28, 0x9d209d67) && WordIs(b, 29, 0xec8726cb)
    ensures WordIs(b, 30, 0x702138a4) && WordIs(b, 31, 0xd3b7973b)
  {
    Words0(b);
    Words16(b);
    NextWord(b, 24, 0x12dcbfdb, 0x000f0000, 0x00000000, 0x00000000, 0xc8215c1a);
    NextWord(b, 25, 0xe2e2c38e, 0x7da86405, 0x00000000, 0x00000000, 0xb73679a2);
    NextWord(b, 26, 0xc8215c1a, 0x600003c6, 0x00000000, 0x00000000, 0xe5bc3909);
    NextWord(b, 27, 0xb73679a2, 0x3e9d7b78, 0x00000000, 0x00000000, 0x32663c5b);
    NextWord(b, 28, 0xe5bc3909, 0x0183fc00, 0x00000000, 0x00000000, 0x9d209d67);
    NextWord(b, 29, 0x32663c5b, 0x12dcbfdb, 0x00000000, 0x00000000, 0xec8726cb);
    NextWord(b, 30, 0x9d209d67, 0xe2e2c38e, 0x00000018, 0x00000000, 0x702138a4);
    NextWord(b, 31, 0xec8726cb, 0xc8215c1a, 0x61626380, 0x00000018, 0xd3b7973b);
  }

  lemma Words32(b: block)
    requires b == AbcBlock()
    ensures WordIs(b, 32, 0x93f5997f) && WordIs(b, 33, 0x3b68ba73)
    ensures WordIs(b, 34, 0xaff4ffc1) && WordIs(b, 35, 0xf10a5c62)
    ensures WordIs(b, 36, 0x0a8b3996) && WordIs(b, 37, 0x72af830a)
    ensures WordIs(b, 38, 0x9409e33e) && WordIs(b, 39, 0x24641522)
  {
    Words16(b);
    Words24(b);
    NextWord(b, 32, 0x702138a4, 0xb73679a2, 0x000f0000, 0x61626380, 0x93f5997f);
    NextWord(b, 33, 0xd3b7973b, 0xe5bc3909, 0x7da86405, 0x000f0000, 0x3b68ba73);
    NextWord(b, 34, 0x93f5997f, 0x32663c5b, 0x600003c6, 0x7da86405, 0xaff4ffc1);
    NextWord(b, 35, 0x3b68ba73, 0x9d209d67, 0x3e9d7b78, 0x600003c6, 0xf10a5c62);
    NextWord(b, 36, 0xaff4ffc1, 0xec8726cb, 0x0183fc00, 0x3e9d7b78, 0x0a8b3996);
    NextWord(b, 37, 0xf10a5c62, 0x702138a4, 0x12dcbfdb, 0x0183fc00, 0x72af830a);
    NextWord(b, 38, 0x0a8b3996, 0xd3b7973b, 0xe2e2c38e, 0x12dcbfdb, 0x9409e33e);
    NextWord(b, 39, 0x72af830a, 0x93f5997f, 0xc8215c1a, 0xe2e2c38e, 0x24641522);
  }

  lemma Words40(b: block)
    requires b == AbcBlock()
    ensures WordIs(b, 40, 0x9f47bf94) && WordIs(b, 41, 0xf0a64f5a)
    ensures WordIs(b, 42, 0x3e246a79) && WordIs(b, 43, 0x27333ba3)
    ensures WordIs(b, 44, 0x0c4763f2) && WordIs(b, 45, 0x840abf27)
    ensures WordIs(b, 46, 0x7a290d5d) && WordIs(b, 47, 0x065c43da)
  {
    Words24(b);
    Words32(b);
    NextWord(b, 40, 0x9409e33e, 0x3b68ba73, 0xb73679a2, 0xc8215c1a, 0x9f47bf94);
    NextWord(b, 41, 0x24641522, 0xaff4ffc1, 0xe5bc3909, 0xb73679a2, 0xf0a64f5a);
    NextWord(b, 42, 0x9f47bf94, 0xf10a5c62, 0x32663c5b, 0xe5bc3909, 0x3e246a79);
    NextWord(b, 43, 0xf0a64f5a, 0x0a8b3996, 0x9d209d67, 0x32663c5b, 0x27333ba3);
    NextWord(b, 44, 0x3e246a79, 0x72af830a, 0xec8726cb, 0x9d209d67, 0x0c4763f2);
    NextWord(b, 45, 0x27333ba3, 0x9409e33e, 0x702138a4, 0xec8726cb, 0x840abf27);
    NextWord(b, 46, 0x0c4763f2, 0x24641522, 0xd3b7973b, 0x702138a4, 0x7a290d5d);
    NextWord(b, 47, 0x840abf27, 0x9f47bf94, 0x93f5997f, 0xd3b7973b, 0x065c43da);
  }

  lemma Words48(b: block)
    requires b == AbcBlock()
    ensures WordIs(b, 48, 0xfb3e89cb) && WordIs(b, 49, 0xcc7617db)
    ensures WordIs(b, 50, 0xb9e66c34) && WordIs(b, 51, 0xa9993667)
    ensures WordIs(b, 52, 0x84badedd) && WordIs(b, 53, 0xc21462bc)
    ensures WordIs(b, 54, 0x1487472c) && WordIs(b, 55, 0xb20f7a99)
  {
    Words32(b);
    Words40(b);
    NextWord(b, 48, 0x7a290d5d, 0xf0a64f5a, 0x3b68ba73, 0x93f5997f, 0xfb3e89cb);
    NextWord(b, 49, 0x065c43da, 0x3e246a79, 0xaff4ffc1, 0x3b68ba73, 0xcc7617db);
    NextWord(b, 50, 0xfb3e89cb, 0x27333ba3, 0xf10a5c62, 0xaff4ffc1, 0xb9e66c34);
    NextWord(b, 51, 0xcc7617db, 0x0c4763f2, 0x0a8b3996, 0xf10a5c62, 0xa9993667);
    NextWord(b, 52, 0xb9e66c34, 0x840abf27, 0x72af830a, 0x0a8b3996, 0x84badedd);
    NextWord(b, 53, 0xa9993667, 0x7a290d5d, 0x9409e33e, 0x72af830a, 0xc21462bc);
    NextWord(b, 54, 0x84badedd, 0x065c43da, 0x24641522, 0x9409e33e, 0x1487472c);
    NextWord(b, 55, 0xc21462bc, 0xfb3e89cb, 0x9f47bf94, 0x24641522, 0xb20f7a99);
  }

  lemma Words56(b: block)
    requires b == AbcBlock()
    ensures WordIs(b, 56, 0xef57b9cd) && WordIs(b, 57, 0xebe6b238)
    ensures WordIs(b, 58, 0x9fe3095e) && WordIs(b, 59, 0x78bc8d4b)
    ensures WordIs(b, 60, 0xa43fcf15) && WordIs(b, 61, 0x668b2ff8)
    ensures WordIs(b, 62, 0xeeaba2cc) && WordIs(b, 63, 0x12b1edeb)
  {
    Words40(b);
    Words48(b);
    NextWord(b, 56, 0x1487472c, 0xcc7617db, 0xf0a64f5a, 0x9f47bf94, 0xef57b9cd);
    NextWord(b, 57, 0xb20f7a99, 0xb9e66c34, 0x3e246a79, 0xf0a64f5a, 0xebe6b238);
    NextWord(b, 58, 0xef57b9cd, 0xa9993667, 0x27333ba3, 0x3e246a79, 0x9fe3095e);
    NextWord(b, 59, 0xebe6b238, 0x84badedd, 0x0c4763f2, 0x27333ba3, 0x78bc8d4b);
    NextWord(b, 60, 0x9fe3095e, 0xc21462bc, 0x840abf27, 0x0c4763f2, 0xa43fcf15);
    NextWord(b, 61, 0x78bc8d4b, 0x1487472c, 0x7a290d5d, 0x840abf27, 0x668b2ff8);
    NextWord(b, 62, 0xa43fcf15, 0xb20f7a99, 0x065c43da, 0x7a290d5d, 0xeeaba2cc);
    NextWord(b, 63, 0x668b2ff8, 0xef57b9cd, 0xfb3e89cb, 0x065c43da, 0x12b1edeb);
  }

  // --- the rounds on "abc" ---------------------------------------------------------------------------------

  lemma RoundsTo0(b: block)
    ensures StateIs(H0, b, 0,
            Registers(0x6a09e667, 0xbb67ae85, 0x3c6ef372, 0xa54ff53a, 0x510e527f, 0x9b05688c, 0x1f83d9ab, 0x5be0cd19))
  {
  }

  lemma RoundsTo16(b: block)
    requires b == AbcBlock()
    ensures StateIs(H0, b, 16,
            Registers(0xb0fa238e, 0xc0645fde, 0xd932eb16, 0x87912990, 0x07590dcd, 0x0b92f20c, 0x745a48de, 0x1e578218))
  {
    RoundsTo0(b);
    Constants0();
    Constants8();
    Words0(b);
    NextState(H0, b, 0, 0x428a2f98, 0x61626380, 0x5d6aebcd, 0xfa2a4622,
              0x6a09e667, 0xbb67ae85, 0x3c6ef372, 0xa54ff53a, 0x510e527f, 0x9b05688c, 0x1f83d9ab, 0x5be0cd19);
    NextState(H0, b, 1, 0x71374491, 0x00000000, 0x5a6ad9ad, 0x78ce7989,
              0x5d6aebcd, 0x6a09e667, 0xbb67ae85, 0x3c6ef372, 0xfa2a4622, 0x510e527f, 0x9b05688c, 0x1f83d9ab);
    NextState(H0, b, 2, 0xb5c0fbcf, 0x00000000, 0xc8c347a7, 0xf92939eb,
              0x5a6ad9ad, 0x5d6aebcd, 0x6a09e667, 0xbb67ae85, 0x78ce7989, 0xfa2a4622, 0x510e527f, 0x9b05688c);
    NextState(H0, b, 3, 0xe9b5dba5, 0x00000000, 0xd550f666, 0x24e00850,
              0xc8c347a7, 0x5a6ad9ad, 0x5d6aebcd, 0x6a09e667, 0xf92939eb, 0x78ce7989, 0xfa2a4622, 0x510e527f);
    NextState(H0, b, 4, 0x3956c25b, 0x00000000, 0x04409a6a, 0x43ada245,
              0xd550f666, 0xc8c347a7, 0x5a6ad9ad, 0x5d6aebcd, 0x24e00850, 0xf92939eb, 0x78ce7989, 0xfa2a4622);
    NextState(H0, b, 5, 0x59f111f1, 0x00000000, 0x2b4209f5, 0x714260ad,
              0x04409a6a, 0xd550f666, 0xc8c347a7, 0x5a6ad9ad, 0x43ada245, 0x24e00850, 0xf92939eb, 0x78ce7989);
    NextState(H0, b, 6, 0x923f82a4, 0x00000000, 0xe5030380, 0x9b27a401,
              0x2b4209f5, 0x04409a6a, 0xd550f666, 0xc8c347a7, 0x714260ad, 0x43ada245, 0x24e00850, 0xf92939eb);
    NextState(H0, b, 7, 0xab1c5ed5, 0x00000000, 0x85a07b5f, 0x0c657a79,
              0xe5030380, 0x2b4209f5, 0x04409a6a, 0xd550f666, 0x9b27a401, 0x714260ad, 0x43ada245, 0x24e00850);
    NextState(H0, b, 8, 0xd807aa98, 0x00000000, 0x8e04ecb9, 0x32ca2d8c,
              0x85a07b5f, 0xe5030380, 0x2b4209f5, 0x04409a6a, 0x0c657a79, 0x9b27a401, 0x714260ad, 0x43ada245);
    NextState(H0, b, 9, 0x12835b01, 0x00000000, 0x8c87346b, 0x1cc92596,
              0x8e04ecb9, 0x85a07b5f, 0xe5030380, 0x2b4209f5, 0x32ca2d8c, 0x0c657a79, 0x9b27a401, 0x714260ad);
    NextState(H0, b, 10, 0x243185be, 0x00000000, 0x4798a3f4, 0x436b23e8,
              0x8c87346b, 0x8e04ecb9, 0x85a07b5f, 0xe5030380, 0x1cc92596, 0x32ca2d8c, 0x0c657a79, 0x9b27a401);
    NextState(H0, b, 11, 0x550c7dc3, 0x00000000, 0xf71fc5a9, 0x816fd6e9,
              0x4798a3f4, 0x8c87346b, 0x8e04ecb9, 0x85a07b5f, 0x436b23e8, 0x1cc92596, 0x32ca2d8c, 0x0c657a79);
    NextState(H0, b, 12, 0x72be5d74, 0x00000000, 0x87912990, 0x1e578218,
              0xf71fc5a9, 0x4798a3f4, 0x8c87346b, 0x8e04ecb9, 0x816fd6e9, 0x436b23e8, 0x1cc92596, 0x32ca2d8c);
    NextState(H0, b, 13, 0x80deb1fe, 0x00000000, 0xd932eb16, 0x745a48de,
              0x87912990, 0xf71fc5a9, 0x4798a3f4, 0x8c87346b, 0x1e578218, 0x816fd6e9, 0x436b23e8, 0x1cc92596);
    NextState(H0, b, 14, 0x9bdc06a7, 0x00000000, 0xc0645fde, 0x0b92f20c,
              0xd932eb16, 0x87912990, 0xf71fc5a9, 0x4798a3f4, 0x745a48de, 0x1e578218, 0x816fd6e9, 0x436b23e8);
    NextState(H0, b, 15, 0xc19bf174, 0x00000018, 0xb0fa238e, 0x07590dcd,
              0xc0645fde, 0xd932eb16, 0x87912990, 0xf71fc5a9, 0x0b92f20c, 0x745a48de, 0x1e578218, 0x816fd6e9);
  }

  lemma RoundsTo32(b: block)
    requires b == AbcBlock()
    ensures StateIs(H0, b, 32,
            Registers(0x73b33bf5, 0xea992a22, 0xa0060b30, 0x363482c9, 0xba591112, 0x0109ab3a, 0xade79437, 0x6112a3b7))
  {
    RoundsTo16(b);
    Constants16();
    Constants24();
    Words16(b);
    Words24(b);
    NextState(H0, b, 16, 0xe49b69c1, 0x61626380, 0x21da9a9b, 0x8034229c,
              0xb0fa238e, 0xc0645fde, 0xd932eb16, 0x87912990, 0x07590dcd, 0x0b92f20c, 0x745a48de, 0x1e578218);
    NextState(H0, b, 17, 0xefbe4786, 0x000f0000, 0xc2fbd9d1, 0x846ee454,
              0x21da9a9b, 0xb0fa238e, 0xc0645fde, 0xd932eb16, 0x8034229c, 0x07590dcd, 0x0b92f20c, 0x745a48de);
    NextState(H0, b, 18, 0x0fc19dc6, 0x7da86405, 0xfe777bbf, 0xcc899961,
              0xc2fbd9d1, 0x21da9a9b, 0xb0fa238e, 0xc0645fde, 0x846ee454, 0x8034229c, 0x07590dcd, 0x0b92f20c);
    NextState(H0, b, 19, 0x240ca1cc, 0x600003c6, 0xe1f20c33, 0xb0638179,
              0xfe777bbf, 0xc2fbd9d1, 0x21da9a9b, 0xb0fa238e, 0xcc899961, 0x846ee454, 0x8034229c, 0x07590dcd);
    NextState(H0, b, 20, 0x2de92c6f, 0x3e9d7b78, 0x9dc68b63, 0x8ada8930,
              0xe1f20c33, 0xfe777bbf, 0xc2fbd9d1, 0x21da9a9b, 0xb0638179, 0xcc899961, 0x846ee454, 0x8034229c);
    NextState(H0, b, 21, 0x4a7484aa, 0x0183fc00, 0xc2606d6d, 0xe1257970,
              0x9dc68b63, 0xe1f20c33, 0xfe777bbf, 0xc2fbd9d1, 0x8ada8930, 0xb0638179, 0xcc899961, 0x846ee454);
    NextState(H0, b, 22, 0x5cb0a9dc, 0x12dcbfdb, 0xa7a3623f, 0x49f5114a,
              0xc2606d6d, 0x9dc68b63, 0xe1f20c33, 0xfe777bbf, 0xe1257970, 0x8ada8930, 0xb0638179, 0xcc899961);
    NextState(H0, b, 23, 0x76f988da, 0xe2e2c38e, 0xc5d53d8d, 0xaa47c347,
              0xa7a3623f, 0xc2606d6d, 0x9dc68b63, 0xe1f20c33, 0x49f5114a, 0xe1257970, 0x8ada8930, 0xb0638179);
    NextState(H0, b, 24, 0x983e5152, 0xc8215c1a, 0x1c2c2838, 0x2823ef91,
              0xc5d53d8d, 0xa7a3623f, 0xc2606d6d, 0x9dc68b63, 0xaa47c347, 0x49f5114a, 0xe1257970, 0x8ada8930);
    NextState(H0, b, 25, 0xa831c66d, 0xb73679a2, 0xcde8037d, 0x14383d8e,
              0x1c2c2838, 0xc5d53d8d, 0xa7a3623f, 0xc2606d6d, 0x2823ef91, 0xaa47c347, 0x49f5114a, 0xe1257970);
    NextState(H0, b, 26, 0xb00327c8, 0xe5bc3909, 0xb62ec4bc, 0xc74c6516,
              0xcde8037d, 0x1c2c2838, 0xc5d53d8d, 0xa7a3623f, 0x14383d8e, 0x2823ef91, 0xaa47c347, 0x49f5114a);
    NextState(H0, b, 27, 0xbf597fc7, 0x32663c5b, 0x77d37528, 0xedffbff8,
              0xb62ec4bc, 0xcde8037d, 0x1c2c2838, 0xc5d53d8d, 0xc74c6516, 0x14383d8e, 0x2823ef91, 0xaa47c347);
    NextState(H0, b, 28, 0xc6e00bf3, 0x9d209d67, 0x363482c9, 0x6112a3b7,
              0x77d37528, 0xb62ec4bc, 0xcde8037d, 0x1c2c2838, 0xedffbff8, 0xc74c6516, 0x14383d8e, 0x2823ef91);
    NextState(H0, b, 29, 0xd5a79147, 0xec8726cb, 0xa0060b30, 0xade79437,
              0x363482c9, 0x77d37528, 0xb62ec4bc, 0xcde8037d, 0x6112a3b7, 0xedffbff8, 0xc74c6516, 0x14383d8e);
    NextState(H0, b, 30, 0x06ca6351, 0x702138a4, 0xea992a22, 0x0109ab3a,
              0xa0060b30, 0x363482c9, 0x77d37528, 0xb62ec4bc, 0xade79437, 0x6112a3b7, 0xedffbff8, 0xc74c6516);
    NextState(H0, b, 31, 0x14292967, 0xd3b7973b, 0x73b33bf5, 0xba591112,
              0xea992a22, 0xa0060b30, 0x363482c9, 0x77d37528, 0x0109ab3a, 0xade79437, 0x6112a3b7, 0xedffbff8);
  }

  lemma RoundsTo48(b: block)
    requires b == AbcBlock()
    ensures StateIs(H0, b, 48,
            Registers(0x4172328d, 0xa14c14b0, 0x72ab4b91, 0x26628815, 0xfecf0bc6, 0xd57b94a9, 0xb7755da1, 0xa80f11f0))
  {
    RoundsTo32(b);
    Constants32();
    Constants40();
    Words32(b);
    Words40(b);
    NextState(H0, b, 32, 0x27b70a85, 0x93f5997f, 0x98e12507, 0x9cd9f5f6,
              0x73b33bf5, 0xea992a22, 0xa0060b30, 0x363482c9, 0xba591112, 0x0109ab3a, 0xade79437, 0x6112a3b7);
    NextState(H0, b, 33, 0x2e1b2138, 0x3b68ba73, 0xfe604df5, 0x59249dd3,
              0x98e12507, 0x73b33bf5, 0xea992a22, 0xa0060b30, 0x9cd9f5f6, 0xba591112, 0x0109ab3a, 0xade79437);
    NextState(H0, b, 34, 0x4d2c6dfc, 0xaff4ffc1, 0xa9a7738c, 0x085f3833,
              0xfe604df5, 0x98e12507, 0x73b33bf5, 0xea992a22, 0x59249dd3, 0x9cd9f5f6, 0xba591112, 0x0109ab3a);
    NextState(H0, b, 35, 0x53380d13, 0xf10a5c62, 0x65a0cfe4, 0xf4b002d6,
              0xa9a7738c, 0xfe604df5, 0x98e12507, 0x73b33bf5, 0x085f3833, 0x59249dd3, 0x9cd9f5f6, 0xba591112);
    NextState(H0, b, 36, 0x650a7354, 0x0a8b3996, 0x41a65cb1, 0x0772a26b,
              0x65a0cfe4, 0xa9a7738c, 0xfe604df5, 0x98e12507, 0xf4b002d6, 0x085f3833, 0x59249dd3, 0x9cd9f5f6);
    NextState(H0, b, 37, 0x766a0abb, 0x72af830a, 0x34df1604, 0xa507a53d,
              0x41a65cb1, 0x65a0cfe4, 0xa9a7738c, 0xfe604df5, 0x0772a26b, 0xf4b002d6, 0x085f3833, 0x59249dd3);
    NextState(H0, b, 38, 0x81c2c92e, 0x9409e33e, 0x6dc57a8a, 0xf0781bc8,
              0x34df1604, 0x41a65cb1, 0x65a0cfe4, 0xa9a7738c, 0xa507a53d, 0x0772a26b, 0xf4b002d6, 0x085f3833);
    NextState(H0, b, 39, 0x92722c85, 0x24641522, 0x79ea687a, 0x1efbc0a0,
              0x6dc57a8a, 0x34df1604, 0x41a65cb1, 0x65a0cfe4, 0xf0781bc8, 0xa507a53d, 0x0772a26b, 0xf4b002d6);
    NextState(H0, b, 40, 0xa2bfe8a1, 0x9f47bf94, 0xd6670766, 0x26352d63,
              0x79ea687a, 0x6dc57a8a, 0x34df1604, 0x41a65cb1, 0x1efbc0a0, 0xf0781bc8, 0xa507a53d, 0x0772a26b);
    NextState(H0, b, 41, 0xa81a664b, 0xf0a64f5a, 0xdf46652f, 0x838b2711,
              0xd6670766, 0x79ea687a, 0x6dc57a8a, 0x34df1604, 0x26352d63, 0x1efbc0a0, 0xf0781bc8, 0xa507a53d);
    NextState(H0, b, 42, 0xc24b8b70, 0x3e246a79, 0x17aa0dfe, 0xdecd4715,
              0xdf46652f, 0xd6670766, 0x79ea687a, 0x6dc57a8a, 0x838b2711, 0x26352d63, 0x1efbc0a0, 0xf0781bc8);
    NextState(H0, b, 43, 0xc76c51a3, 0x27333ba3, 0x9d4baf93, 0xfda24c2e,
              0x17aa0dfe, 0xdf46652f, 0xd6670766, 0x79ea687a, 0xdecd4715, 0x838b2711, 0x26352d63, 0x1efbc0a0);
    NextState(H0, b, 44, 0xd192e819, 0x0c4763f2, 0x26628815, 0xa80f11f0,
              0x9d4baf93, 0x17aa0dfe, 0xdf46652f, 0xd6670766, 0xfda24c2e, 0xdecd4715, 0x838b2711, 0x26352d63);
    NextState(H0, b, 45, 0xd6990624, 0x840abf27, 0x72ab4b91, 0xb7755da1,
              0x26628815, 0x9d4baf93, 0x17aa0dfe, 0xdf46652f, 0xa80f11f0, 0xfda24c2e, 0xdecd4715, 0x838b2711);
    NextState(H0, b, 46, 0xf40e3585, 0x7a290d5d, 0xa14c14b0, 0xd57b94a9,
              0x72ab4b91, 0x26628815, 0x9d4baf93, 0x17aa0dfe, 0xb7755da1, 0xa80f11f0, 0xfda24c2e, 0xdecd4715);
    NextState(H0, b, 47, 0x106aa070, 0x065c43da, 0x4172328d, 0xfecf0bc6,
              0xa14c14b0, 0x72ab4b91, 0x26628815, 0x9d4baf93, 0xd57b94a9, 0xb7755da1, 0xa80f11f0, 0xfda24c2e);
  }

  lemma RoundsTo64(b: block)
    requires b == AbcBlock()
    ensures StateIs(H0, b, 64,
            Registers(0x506e3058, 0xd39a2165, 0x04d24d6c, 0xb85e2ce9, 0x5ef50f24, 0xfb121210, 0x948d25b6, 0x961f4894))
  {
    RoundsTo48(b);
    Constants48();
    Constants56();
    Words48(b);
    Words56(b);
    NextState(H0, b, 48, 0x19a4c116, 0xfb3e89cb, 0x05757ceb, 0xbd714038,
              0x4172328d, 0xa14c14b0, 0x72ab4b91, 0x26628815, 0xfecf0bc6, 0xd57b94a9, 0xb7755da1, 0xa80f11f0);
    NextState(H0, b, 49, 0x1e376c08, 0xcc7617db, 0xf11bfaa8, 0x6e5c390c,
              0x05757ceb, 0x4172328d, 0xa14c14b0, 0x72ab4b91, 0xbd714038, 0xfecf0bc6, 0xd57b94a9, 0xb7755da1);
    NextState(H0, b, 50, 0x2748774c, 0xb9e66c34, 0x7a0508a1, 0x52f1ccf7,
              0xf11bfaa8, 0x05757ceb, 0x4172328d, 0xa14c14b0, 0x6e5c390c, 0xbd714038, 0xfecf0bc6, 0xd57b94a9);
    NextState(H0, b, 51, 0x34b0bcb5, 0xa9993667, 0x886e7a22, 0x49231c1e,
              0x7a0508a1, 0xf11bfaa8, 0x05757ceb, 0x4172328d, 0x52f1ccf7, 0x6e5c390c, 0xbd714038, 0xfecf0bc6);
    NextState(H0, b, 52, 0x391c0cb3, 0x84badedd, 0x101fd28f, 0x529e7d00,
              0x886e7a22, 0x7a0508a1, 0xf11bfaa8, 0x05757ceb, 0x49231c1e, 0x52f1ccf7, 0x6e5c390c, 0xbd714038);
    NextState(H0, b, 53, 0x4ed8aa4a, 0xc21462bc, 0xf5702fdb, 0x9f4787c3,
              0x101fd28f, 0x886e7a22, 0x7a0508a1, 0xf11bfaa8, 0x529e7d00, 0x49231c1e, 0x52f1ccf7, 0x6e5c390c);
    NextState(H0, b, 54, 0x5b9cca4f, 0x1487472c, 0x3ec45cdb, 0xe50e1b4f,
              0xf5702fdb, 0x101fd28f, 0x886e7a22, 0x7a0508a1, 0x9f4787c3, 0x529e7d00, 0x49231c1e, 0x52f1ccf7);
    NextState(H0, b, 55, 0x682e6ff3, 0xb20f7a99, 0x38cc9913, 0x54cb266b,
              0x3ec45cdb, 0xf5702fdb, 0x101fd28f, 0x886e7a22, 0xe50e1b4f, 0x9f4787c3, 0x529e7d00, 0x49231c1e);
    NextState(H0, b, 56, 0x748f82ee, 0xef57b9cd, 0xfcd1887b, 0x9b5e906c,
              0x38cc9913, 0x3ec45cdb, 0xf5702fdb, 0x101fd28f, 0x54cb266b, 0xe50e1b4f, 0x9f4787c3, 0x529e7d00);
    NextState(H0, b, 57, 0x78a5636f, 0xebe6b238, 0xc062d46f, 0x7e44008e,
              0xfcd1887b, 0x38cc9913, 0x3ec45cdb, 0xf5702fdb, 0x9b5e906c, 0x54cb266b, 0xe50e1b4f, 0x9f4787c3);
    NextState(H0, b, 58, 0x84c87814, 0x9fe3095e, 0xffb70472, 0x6d83bfc6,
              0xc062d46f, 0xfcd1887b, 0x38cc9913, 0x3ec45cdb, 0x7e44008e, 0x9b5e906c, 0x54cb266b, 0xe50e1b4f);
    NextState(H0, b, 59, 0x8cc70208, 0x78bc8d4b, 0xb6ae8fff, 0xb21bad3d,
              0xffb70472, 0xc062d46f, 0xfcd1887b, 0x38cc9913, 0x6d83bfc6, 0x7e44008e, 0x9b5e906c, 0x54cb266b);
    NextState(H0, b, 60, 0x90befffa, 0xa43fcf15, 0xb85e2ce9, 0x961f4894,
              0xb6ae8fff, 0xffb70472, 0xc062d46f, 0xfcd1887b, 0xb21bad3d, 0x6d83bfc6, 0x7e44008e, 0x9b5e906c);
    NextState(H0, b, 61, 0xa4506ceb, 0x668b2ff8, 0x04d24d6c, 0x948d25b6,
              0xb85e2ce9, 0xb6ae8fff, 0xffb70472, 0xc062d46f, 0x961f4894, 0xb21bad3d, 0x6d83bfc6, 0x7e44008e);
    NextState(H0, b, 62, 0xbef9a3f7, 0xeeaba2cc, 0xd39a2165, 0xfb121210,
              0x04d24d6c, 0xb85e2ce9, 0xb6ae8fff, 0xffb70472, 0x948d25b6, 0x961f4894, 0xb21bad3d, 0x6d83bfc6);
    NextState(H0, b, 63, 0xc67178f2, 0x12b1edeb, 0x506e3058, 0x5ef50f24,
              0xd39a2165, 0x04d24d6c, 0xb85e2ce9, 0xb6ae8fff, 0xfb121210, 0x948d25b6, 0x961f4894, 0xb21bad3d);
  }

  // --- the digest -----------------------------------------------------------------------------------------

  function AbcHash(): Registers {
    Registers(0xba7816bf, 0x8f01cfea, 0x414140de, 0x5dae2223,
              0xb00361a3, 0x96177a9c, 0xb410ff61, 0xf20015ad)
  }

  lemma CompressionOfAbc()
    ensures Compress(K256, H0, AbcBlock()) == AbcHash()
  {
    var b := AbcBlock();
    RoundsTo64(b);
    Compressed(H0, b, Registers(0x506e3058, 0xd39a2165, 0x04d24d6c, 0xb85e2ce9,
               0x5ef50f24, 0xfb121210, 0x948d25b6, 0x961f4894), AbcHash());
  }

  lemma PaddedAbc()
    ensures Pad([0x61, 0x62, 0x63]) == AbcBlock()
  {
    SmallLengthField(3);
    assert ZeroCount(3) == 52;
    assert Zeros(59) == Zeros(52) + Zeros(7);
  }

  /** The length of a message of fewer than 32 bytes is in the last byte of the length field. */
  lemma SmallLengthField(n: nat)
    requires n < 32
    ensures LengthField(n) == Zeros(7) + [8 * n]
  {
    assert BigEndian(0, 1) == [0];
    assert BigEndian(0, 3) == [0, 0, 0];
    assert BigEndian(0, 5) == [0, 0, 0, 0, 0];
    assert BigEndian(0, 7) == [0, 0, 0, 0, 0, 0, 0];
    assert BigEndian(8 * n, 8) == BigEndian(0, 7) + [8 * n];
  }

  lemma HashOfAbc(m: seq<byte>)
    requires m == [0x61, 0x62, 0x63]
    ensures FinalHash(StepOf(K256), m) == AbcHash()
  {
    PadShape(m);
    PaddedAbc();
    CompressionOfAbc();
    var b: seq<byte> := AbcBlock();
    assert b[..0] == [] && b[0..] == b;
    assert Chain(StepOf(K256), H0, [], 0) == H0;
  }

  lemma BytesOfAbc()
    ensures WordBytes(0xba7816bf) == [0xba, 0x78, 0x16, 0xbf]
    ensures WordBytes(0x8f01cfea) == [0x8f, 0x01, 0xcf, 0xea]
    ensures WordBytes(0x414140de) == [0x41, 0x41, 0x40, 0xde]
    ensures WordBytes(0x5dae2223) == [0x5d, 0xae, 0x22, 0x23]
    ensures WordBytes(0xb00361a3) == [0xb0, 0x03, 0x61, 0xa3]
    ensures WordBytes(0x96177a9c) == [0x96, 0x17, 0x7a, 0x9c]
    ensures WordBytes(0xb410ff61) == [0xb4, 0x10, 0xff, 0x61]
    ensures WordBytes(0xf20015ad) == [0xf2, 0x00, 0x15, 0xad]
  {
  }

  lemma AbcDigest()
    ensures Digest(AbcHash())
         == [0xba, 0x78, 0x16, 0xbf, 0x8f, 0x01, 0xcf, 0xea, 0x41, 0x41, 0x40, 0xde, 0x5d, 0xae, 0x22, 0x23]
          + [0xb0, 0x03, 0x61, 0xa3, 0x96, 0x17, 0x7a, 0x9c, 0xb4, 0x10, 0xff, 0x61, 0xf2, 0x00, 0x15, 0xad]
  {
    EightParts(Parts(AbcHash()));
    BytesOfAbc();
    assert [0xba, 0x78, 0x16, 0xbf] + [0x8f, 0x01, 0xcf, 0xea] + [0x41, 0x41, 0x40, 0xde] + [0x5d, 0xae, 0x22, 0x23]
        == [0xba, 0x78, 0x16, 0xbf, 0x8f, 0x01, 0xcf, 0xea, 0x41, 0x41, 0x40, 0xde, 0x5d, 0xae, 0x22, 0x23];
    assert [0xb0, 0x03, 0x61, 0xa3] + [0x96, 0x17, 0x7a, 0x9c] + [0xb4, 0x10, 0xff, 0x61] + [0xf2, 0x00, 0x15, 0xad]
        == [0xb0, 0x03, 0x61, 0xa3, 0x96, 0x17, 0x7a, 0x9c, 0xb4, 0x10, 0xff, 0x61, 0xf2, 0x00, 0x15, 0xad];
  }

  /** "abc" has the digest that the standard gives. */
  lemma DigestOfAbc()
    ensures Sha256(K256, [0x61, 0x62, 0x63])
         == [0xba, 0x78, 0x16, 0xbf, 0x8f, 0x01, 0xcf, 0xea, 0x41, 0x41, 0x40, 0xde, 0x5d, 0xae, 0x22, 0x23]
          + [0xb0, 0x03, 0x61, 0xa3, 0x96, 0x17, 0x7a, 0x9c, 0xb4, 0x10, 0xff, 0x61, 0xf2, 0x00, 0x15, 0xad]
  {
    HashOfAbc([0x61, 0x62, 0x63]);
    AbcDigest();
  }
}
