/** SHA-256 checked against values of its own: the example message "abc" of FIPS 180-4, step by step, and
    how the blocks of any message are read and chained. */
module Sha256Vectors {
  import opened Bytes
  import opened Sha256
  import Sha256Buffer

  // ---------- literal steps ----------

  /** From the working variables `a` to `h`, a round with constant `k` and schedule word `w` makes `a1`
      and `e1` and moves the others along. */
  predicate Makes(a: word, b: word, c: word, d: word, e: word, f: word, g: word, h: word, k: word, w: word, a1: word, e1: word) {
    Round(Eight(a, b, c, d, e, f, g, h), k, w) == Eight(a1, a, b, c, e1, e, f, g)
  }

  /** The working variables after `t` rounds. */
  predicate After(x: Eight, ws: seq<word>, t: nat, a: word, b: word, c: word, d: word, e: word, f: word, g: word, h: word)
    requires |ws| == 64 && t <= 64
  {
    Rounds(x, ws, t) == Eight(a, b, c, d, e, f, g, h)
  }

  lemma Step(x: Eight, ws: seq<word>, t: nat, a: word, b: word, c: word, d: word, e: word, f: word, g: word, h: word,
             k: word, w: word, a1: word, e1: word)
    requires |ws| == 64 && t < 64 && k == K(t) && w == ws[t]
    requires After(x, ws, t, a, b, c, d, e, f, g, h)
    requires Makes(a, b, c, d, e, f, g, h, k, w, a1, e1)
    ensures After(x, ws, t + 1, a1, a, b, c, e1, e, f, g)
  {
    hide K, Round;
    Sha256Buffer.RoundsStep(x, ws, t);
  }

  function NextWord(w2: word, w7: word, w15: word, w16: word): word {
    Add(Add(Add(SmallSigma1(w2), w7), SmallSigma0(w15)), w16)
  }

  predicate Follows(ws: seq<word>, t: nat)
    requires 16 <= t < |ws|
  {
    ws[t] == NextWord(ws[t - 2], ws[t - 7], ws[t - 15], ws[t - 16])
  }

  /** A schedule starts with its block, and every later word follows from the words before. */
  ghost predicate IsSchedule(ws: seq<word>, block: seq<word>) {
    && |ws| >= 16 && ws[..16] == block
    && forall t :: 16 <= t < |ws| ==> Follows(ws, t)
  }

  lemma {:induction false} ScheduleIs(block: seq<word>, n: nat)
    requires |block| == 16 && n >= 16
    ensures IsSchedule(Schedule(block, n), block)
  {
    hide Add, SmallSigma0, SmallSigma1;
    if n == 16 {
    } else {
      ScheduleIs(block, n - 1);
      var ws, before := Schedule(block, n), Schedule(block, n - 1);
      assert ws[..n - 1] == before;
      assert ws[..16] == before[..16];
      forall t | 16 <= t < n
        ensures Follows(ws, t)
      {
        if t < n - 1 {
          assert Follows(before, t);
        }
      }
    }
  }

  lemma Word(ws: seq<word>, block: seq<word>, t: nat, w2: word, w7: word, w15: word, w16: word, w: word)
    requires IsSchedule(ws, block) && 16 <= t < |ws|
    requires ws[t - 2] == w2 && ws[t - 7] == w7 && ws[t - 15] == w15 && ws[t - 16] == w16
    requires NextWord(w2, w7, w15, w16) == w
    ensures ws[t] == w
  {
    hide NextWord;
    assert Follows(ws, t);
  }

  // ---------- the example "abc" ----------

  const ABC: seq<byte> := [0x61, 0x62, 0x63]

  predicate AbcWords0(ws: seq<word>)
    requires |ws| == 64
  {
    && ws[0] == 0x61626380 && ws[1] == 0x00000000 && ws[2] == 0x00000000 && ws[3] == 0x00000000
    && ws[4] == 0x00000000 && ws[5] == 0x00000000 && ws[6] == 0x00000000 && ws[7] == 0x00000000
    && ws[8] == 0x00000000 && ws[9] == 0x00000000 && ws[10] == 0x00000000 && ws[11] == 0x00000000
    && ws[12] == 0x00000000 && ws[13] == 0x00000000 && ws[14] == 0x00000000 && ws[15] == 0x00000018
  }

  predicate AbcWords16(ws: seq<word>)
    requires |ws| == 64
  {
    && ws[16] == 0x61626380 && ws[17] == 0x000f0000 && ws[18] == 0x7da86405 && ws[19] == 0x600003c6
    && ws[20] == 0x3e9d7b78 && ws[21] == 0x0183fc00 && ws[22] == 0x12dcbfdb && ws[23] == 0xe2e2c38e
    && ws[24] == 0xc8215c1a && ws[25] == 0xb73679a2 && ws[26] == 0xe5bc3909 && ws[27] == 0x32663c5b
    && ws[28] == 0x9d209d67 && ws[29] == 0xec8726cb && ws[30] == 0x702138a4 && ws[31] == 0xd3b7973b
  }

  predicate AbcWords32(ws: seq<word>)
    requires |ws| == 64
  {
    && ws[32] == 0x93f5997f && ws[33] == 0x3b68ba73 && ws[34] == 0xaff4ffc1 && ws[35] == 0xf10a5c62
    && ws[36] == 0x0a8b3996 && ws[37] == 0x72af830a && ws[38] == 0x9409e33e && ws[39] == 0x24641522
    && ws[40] == 0x9f47bf94 && ws[41] == 0xf0a64f5a && ws[42] == 0x3e246a79 && ws[43] == 0x27333ba3
    && ws[44] == 0x0c4763f2 && ws[45] == 0x840abf27 && ws[46] == 0x7a290d5d && ws[47] == 0x065c43da
  }

  predicate AbcWords48(ws: seq<word>)
    requires |ws| == 64
  {
    && ws[48] == 0xfb3e89cb && ws[49] == 0xcc7617db && ws[50] == 0xb9e66c34 && ws[51] == 0xa9993667
    && ws[52] == 0x84badedd && ws[53] == 0xc21462bc && ws[54] == 0x1487472c && ws[55] == 0xb20f7a99
    && ws[56] == 0xef57b9cd && ws[57] == 0xebe6b238 && ws[58] == 0x9fe3095e && ws[59] == 0x78bc8d4b
    && ws[60] == 0xa43fcf15 && ws[61] == 0x668b2ff8 && ws[62] == 0xeeaba2cc && ws[63] == 0x12b1edeb
  }

  predicate AbcWords(ws: seq<word>) {
    |ws| == 64 && AbcWords0(ws) && AbcWords16(ws) && AbcWords32(ws) && AbcWords48(ws)
  }

  lemma AbcSchedule16(ws: seq<word>, block: seq<word>)
    requires |ws| == 64 && IsSchedule(ws, block) && AbcWords0(ws)
    ensures AbcWords16(ws)
  {
    hide IsSchedule;
    Word(ws, block, 16, 0x00000000, 0x00000000, 0x00000000, 0x61626380, 0x61626380);
    Word(ws, block, 17, 0x00000018, 0x00000000, 0x00000000, 0x00000000, 0x000f0000);
    Word(ws, block, 18, 0x61626380, 0x00000000, 0x00000000, 0x00000000, 0x7da86405);
    Word(ws, block, 19, 0x000f0000, 0x00000000, 0x00000000, 0x00000000, 0x600003c6);
    Word(ws, block, 20, 0x7da86405, 0x00000000, 0x00000000, 0x00000000, 0x3e9d7b78);
    Word(ws, block, 21, 0x600003c6, 0x00000000, 0x00000000, 0x00000000, 0x0183fc00);
    Word(ws, block, 22, 0x3e9d7b78, 0x00000018, 0x00000000, 0x00000000, 0x12dcbfdb);
    Word(ws, block, 23, 0x0183fc00, 0x61626380, 0x00000000, 0x00000000, 0xe2e2c38e);
    Word(ws, block, 24, 0x12dcbfdb, 0x000f0000, 0x00000000, 0x00000000, 0xc8215c1a);
    Word(ws, block, 25, 0xe2e2c38e, 0x7da86405, 0x00000000, 0x00000000, 0xb73679a2);
    Word(ws, block, 26, 0xc8215c1a, 0x600003c6, 0x00000000, 0x00000000, 0xe5bc3909);
    Word(ws, block, 27, 0xb73679a2, 0x3e9d7b78, 0x00000000, 0x00000000, 0x32663c5b);
    Word(ws, block, 28, 0xe5bc3909, 0x0183fc00, 0x00000000, 0x00000000, 0x9d209d67);
    Word(ws, block, 29, 0x32663c5b, 0x12dcbfdb, 0x00000000, 0x00000000, 0xec8726cb);
    Word(ws, block, 30, 0x9d209d67, 0xe2e2c38e, 0x00000018, 0x00000000, 0x702138a4);
    Word(ws, block, 31, 0xec8726cb, 0xc8215c1a, 0x61626380, 0x00000018, 0xd3b7973b);
  }

  lemma AbcSchedule32(ws: seq<word>, block: seq<word>)
    requires |ws| == 64 && IsSchedule(ws, block) && AbcWords16(ws)
    ensures AbcWords32(ws)
  {
    hide IsSchedule;
    Word(ws, block, 32, 0x702138a4, 0xb73679a2, 0x000f0000, 0x61626380, 0x93f5997f);
    Word(ws, block, 33, 0xd3b7973b, 0xe5bc3909, 0x7da86405, 0x000f0000, 0x3b68ba73);
    Word(ws, block, 34, 0x93f5997f, 0x32663c5b, 0x600003c6, 0x7da86405, 0xaff4ffc1);
    Word(ws, block, 35, 0x3b68ba73, 0x9d209d67, 0x3e9d7b78, 0x600003c6, 0xf10a5c62);
    Word(ws, block, 36, 0xaff4ffc1, 0xec8726cb, 0x0183fc00, 0x3e9d7b78, 0x0a8b3996);
    Word(ws, block, 37, 0xf10a5c62, 0x702138a4, 0x12dcbfdb, 0x0183fc00, 0x72af830a);
    Word(ws, block, 38, 0x0a8b3996, 0xd3b7973b, 0xe2e2c38e, 0x12dcbfdb, 0x9409e33e);
    Word(ws, block, 39, 0x72af830a, 0x93f5997f, 0xc8215c1a, 0xe2e2c38e, 0x24641522);
    Word(ws, block, 40, 0x9409e33e, 0x3b68ba73, 0xb73679a2, 0xc8215c1a, 0x9f47bf94);
    Word(ws, block, 41, 0x24641522, 0xaff4ffc1, 0xe5bc3909, 0xb73679a2, 0xf0a64f5a);
    Word(ws, block, 42, 0x9f47bf94, 0xf10a5c62, 0x32663c5b, 0xe5bc3909, 0x3e246a79);
    Word(ws, block, 43, 0xf0a64f5a, 0x0a8b3996, 0x9d209d67, 0x32663c5b, 0x27333ba3);
    Word(ws, block, 44, 0x3e246a79, 0x72af830a, 0xec8726cb, 0x9d209d67, 0x0c4763f2);
    Word(ws, block, 45, 0x27333ba3, 0x9409e33e, 0x702138a4, 0xec8726cb, 0x840abf27);
    Word(ws, block, 46, 0x0c4763f2, 0x24641522, 0xd3b7973b, 0x702138a4, 0x7a290d5d);
    Word(ws, block, 47, 0x840abf27, 0x9f47bf94, 0x93f5997f, 0xd3b7973b, 0x065c43da);
  }

  lemma AbcSchedule48(ws: seq<word>, block: seq<word>)
    requires |ws| == 64 && IsSchedule(ws, block) && AbcWords32(ws)
    ensures AbcWords48(ws)
  {
    hide IsSchedule;
    Word(ws, block, 48, 0x7a290d5d, 0xf0a64f5a, 0x3b68ba73, 0x93f5997f, 0xfb3e89cb);
    Word(ws, block, 49, 0x065c43da, 0x3e246a79, 0xaff4ffc1, 0x3b68ba73, 0xcc7617db);
    Word(ws, block, 50, 0xfb3e89cb, 0x27333ba3, 0xf10a5c62, 0xaff4ffc1, 0xb9e66c34);
    Word(ws, block, 51, 0xcc7617db, 0x0c4763f2, 0x0a8b3996, 0xf10a5c62, 0xa9993667);
    Word(ws, block, 52, 0xb9e66c34, 0x840abf27, 0x72af830a, 0x0a8b3996, 0x84badedd);
    Word(ws, block, 53, 0xa9993667, 0x7a290d5d, 0x9409e33e, 0x72af830a, 0xc21462bc);
    Word(ws, block, 54, 0x84badedd, 0x065c43da, 0x24641522, 0x9409e33e, 0x1487472c);
    Word(ws, block, 55, 0xc21462bc, 0xfb3e89cb, 0x9f47bf94, 0x24641522, 0xb20f7a99);
    Word(ws, block, 56, 0x1487472c, 0xcc7617db, 0xf0a64f5a, 0x9f47bf94, 0xef57b9cd);
    Word(ws, block, 57, 0xb20f7a99, 0xb9e66c34, 0x3e246a79, 0xf0a64f5a, 0xebe6b238);
    Word(ws, block, 58, 0xef57b9cd, 0xa9993667, 0x27333ba3, 0x3e246a79, 0x9fe3095e);
    Word(ws, block, 59, 0xebe6b238, 0x84badedd, 0x0c4763f2, 0x27333ba3, 0x78bc8d4b);
    Word(ws, block, 60, 0x9fe3095e, 0xc21462bc, 0x840abf27, 0x0c4763f2, 0xa43fcf15);
    Word(ws, block, 61, 0x78bc8d4b, 0x1487472c, 0x7a290d5d, 0x840abf27, 0x668b2ff8);
    Word(ws, block, 62, 0xa43fcf15, 0xb20f7a99, 0x065c43da, 0x7a290d5d, 0xeeaba2cc);
    Word(ws, block, 63, 0x668b2ff8, 0xef57b9cd, 0xfb3e89cb, 0x065c43da, 0x12b1edeb);
  }

  lemma AbcRounds0(x: Eight, ws: seq<word>)
    requires AbcWords(ws) && After(x, ws, 0, 0x6a09e667, 0xbb67ae85, 0x3c6ef372, 0xa54ff53a, 0x510e527f, 0x9b05688c, 0x1f83d9ab, 0x5be0cd19)
    ensures After(x, ws, 8, 0x85a07b5f, 0xe5030380, 0x2b4209f5, 0x04409a6a, 0x0c657a79, 0x9b27a401, 0x714260ad, 0x43ada245)
  {
    hide After;
    Step(x, ws, 0, 0x6a09e667, 0xbb67ae85, 0x3c6ef372, 0xa54ff53a, 0x510e527f, 0x9b05688c, 0x1f83d9ab, 0x5be0cd19, 0x428a2f98, 0x61626380, 0x5d6aebcd, 0xfa2a4622);
    Step(x, ws, 1, 0x5d6aebcd, 0x6a09e667, 0xbb67ae85, 0x3c6ef372, 0xfa2a4622, 0x510e527f, 0x9b05688c, 0x1f83d9ab, 0x71374491, 0x00000000, 0x5a6ad9ad, 0x78ce7989);
    Step(x, ws, 2, 0x5a6ad9ad, 0x5d6aebcd, 0x6a09e667, 0xbb67ae85, 0x78ce7989, 0xfa2a4622, 0x510e527f, 0x9b05688c, 0xb5c0fbcf, 0x00000000, 0xc8c347a7, 0xf92939eb);
    Step(x, ws, 3, 0xc8c347a7, 0x5a6ad9ad, 0x5d6aebcd, 0x6a09e667, 0xf92939eb, 0x78ce7989, 0xfa2a4622, 0x510e527f, 0xe9b5dba5, 0x00000000, 0xd550f666, 0x24e00850);
    Step(x, ws, 4, 0xd550f666, 0xc8c347a7, 0x5a6ad9ad, 0x5d6aebcd, 0x24e00850, 0xf92939eb, 0x78ce7989, 0xfa2a4622, 0x3956c25b, 0x00000000, 0x04409a6a, 0x43ada245);
    Step(x, ws, 5, 0x04409a6a, 0xd550f666, 0xc8c347a7, 0x5a6ad9ad, 0x43ada245, 0x24e00850, 0xf92939eb, 0x78ce7989, 0x59f111f1, 0x00000000, 0x2b4209f5, 0x714260ad);
    Step(x, ws, 6, 0x2b4209f5, 0x04409a6a, 0xd550f666, 0xc8c347a7, 0x714260ad, 0x43ada245, 0x24e00850, 0xf92939eb, 0x923f82a4, 0x00000000, 0xe5030380, 0x9b27a401);
    Step(x, ws, 7, 0xe5030380, 0x2b4209f5, 0x04409a6a, 0xd550f666, 0x9b27a401, 0x714260ad, 0x43ada245, 0x24e00850, 0xab1c5ed5, 0x00000000, 0x85a07b5f, 0x0c657a79);
  }

  lemma AbcRounds8(x: Eight, ws: seq<word>)
    requires AbcWords(ws) && After(x, ws, 8, 0x85a07b5f, 0xe5030380, 0x2b4209f5, 0x04409a6a, 0x0c657a79, 0x9b27a401, 0x714260ad, 0x43ada245)
    ensures After(x, ws, 16, 0xb0fa238e, 0xc0645fde, 0xd932eb16, 0x87912990, 0x07590dcd, 0x0b92f20c, 0x745a48de, 0x1e578218)
  {
    hide After;
    Step(x, ws, 8, 0x85a07b5f, 0xe5030380, 0x2b4209f5, 0x04409a6a, 0x0c657a79, 0x9b27a401, 0x714260ad, 0x43ada245, 0xd807aa98, 0x00000000, 0x8e04ecb9, 0x32ca2d8c);
    Step(x, ws, 9, 0x8e04ecb9, 0x85a07b5f, 0xe5030380, 0x2b4209f5, 0x32ca2d8c, 0x0c657a79, 0x9b27a401, 0x714260ad, 0x12835b01, 0x00000000, 0x8c87346b, 0x1cc92596);
    Step(x, ws, 10, 0x8c87346b, 0x8e04ecb9, 0x85a07b5f, 0xe5030380, 0x1cc92596, 0x32ca2d8c, 0x0c657a79, 0x9b27a401, 0x243185be, 0x00000000, 0x4798a3f4, 0x436b23e8);
    Step(x, ws, 11, 0x4798a3f4, 0x8c87346b, 0x8e04ecb9, 0x85a07b5f, 0x436b23e8, 0x1cc92596, 0x32ca2d8c, 0x0c657a79, 0x550c7dc3, 0x00000000, 0xf71fc5a9, 0x816fd6e9);
    Step(x, ws, 12, 0xf71fc5a9, 0x4798a3f4, 0x8c87346b, 0x8e04ecb9, 0x816fd6e9, 0x436b23e8, 0x1cc92596, 0x32ca2d8c, 0x72be5d74, 0x00000000, 0x87912990, 0x1e578218);
    Step(x, ws, 13, 0x87912990, 0xf71fc5a9, 0x4798a3f4, 0x8c87346b, 0x1e578218, 0x816fd6e9, 0x436b23e8, 0x1cc92596, 0x80deb1fe, 0x00000000, 0xd932eb16, 0x745a48de);
    Step(x, ws, 14, 0xd932eb16, 0x87912990, 0xf71fc5a9, 0x4798a3f4, 0x745a48de, 0x1e578218, 0x816fd6e9, 0x436b23e8, 0x9bdc06a7, 0x00000000, 0xc0645fde, 0x0b92f20c);
    Step(x, ws, 15, 0xc0645fde, 0xd932eb16, 0x87912990, 0xf71fc5a9, 0x0b92f20c, 0x745a48de, 0x1e578218, 0x816fd6e9, 0xc19bf174, 0x00000018, 0xb0fa238e, 0x07590dcd);
  }

  lemma AbcRounds16(x: Eight, ws: seq<word>)
    requires AbcWords(ws) && After(x, ws, 16, 0xb0fa238e, 0xc0645fde, 0xd932eb16, 0x87912990, 0x07590dcd, 0x0b92f20c, 0x745a48de, 0x1e578218)
    ensures After(x, ws, 24, 0xc5d53d8d, 0xa7a3623f, 0xc2606d6d, 0x9dc68b63, 0xaa47c347, 0x49f5114a, 0xe1257970, 0x8ada8930)
  {
    hide After;
    Step(x, ws, 16, 0xb0fa238e, 0xc0645fde, 0xd932eb16, 0x87912990, 0x07590dcd, 0x0b92f20c, 0x745a48de, 0x1e578218, 0xe49b69c1, 0x61626380, 0x21da9a9b, 0x8034229c);
    Step(x, ws, 17, 0x21da9a9b, 0xb0fa238e, 0xc0645fde, 0xd932eb16, 0x8034229c, 0x07590dcd, 0x0b92f20c, 0x745a48de, 0xefbe4786, 0x000f0000, 0xc2fbd9d1, 0x846ee454);
    Step(x, ws, 18, 0xc2fbd9d1, 0x21da9a9b, 0xb0fa238e, 0xc0645fde, 0x846ee454, 0x8034229c, 0x07590dcd, 0x0b92f20c, 0x0fc19dc6, 0x7da86405, 0xfe777bbf, 0xcc899961);
    Step(x, ws, 19, 0xfe777bbf, 0xc2fbd9d1, 0x21da9a9b, 0xb0fa238e, 0xcc899961, 0x846ee454, 0x8034229c, 0x07590dcd, 0x240ca1cc, 0x600003c6, 0xe1f20c33, 0xb0638179);
    Step(x, ws, 20, 0xe1f20c33, 0xfe777bbf, 0xc2fbd9d1, 0x21da9a9b, 0xb0638179, 0xcc899961, 0x846ee454, 0x8034229c, 0x2de92c6f, 0x3e9d7b78, 0x9dc68b63, 0x8ada8930);
    Step(x, ws, 21, 0x9dc68b63, 0xe1f20c33, 0xfe777bbf, 0xc2fbd9d1, 0x8ada8930, 0xb0638179, 0xcc899961, 0x846ee454, 0x4a7484aa, 0x0183fc00, 0xc2606d6d, 0xe1257970);
    Step(x, ws, 22, 0xc2606d6d, 0x9dc68b63, 0xe1f20c33, 0xfe777bbf, 0xe1257970, 0x8ada8930, 0xb0638179, 0xcc899961, 0x5cb0a9dc, 0x12dcbfdb, 0xa7a3623f, 0x49f5114a);
    Step(x, ws, 23, 0xa7a3623f, 0xc2606d6d, 0x9dc68b63, 0xe1f20c33, 0x49f5114a, 0xe1257970, 0x8ada8930, 0xb0638179, 0x76f988da, 0xe2e2c38e, 0xc5d53d8d, 0xaa47c347);
  }

  lemma AbcRounds24(x: Eight, ws: seq<word>)
    requires AbcWords(ws) && After(x, ws, 24, 0xc5d53d8d, 0xa7a3623f, 0xc2606d6d, 0x9dc68b63, 0xaa47c347, 0x49f5114a, 0xe1257970, 0x8ada8930)
    ensures After(x, ws, 32, 0x73b33bf5, 0xea992a22, 0xa0060b30, 0x363482c9, 0xba591112, 0x0109ab3a, 0xade79437, 0x6112a3b7)
  {
    hide After;
    Step(x, ws, 24, 0xc5d53d8d, 0xa7a3623f, 0xc2606d6d, 0x9dc68b63, 0xaa47c347, 0x49f5114a, 0xe1257970, 0x8ada8930, 0x983e5152, 0xc8215c1a, 0x1c2c2838, 0x2823ef91);
    Step(x, ws, 25, 0x1c2c2838, 0xc5d53d8d, 0xa7a3623f, 0xc2606d6d, 0x2823ef91, 0xaa47c347, 0x49f5114a, 0xe1257970, 0xa831c66d, 0xb73679a2, 0xcde8037d, 0x14383d8e);
    Step(x, ws, 26, 0xcde8037d, 0x1c2c2838, 0xc5d53d8d, 0xa7a3623f, 0x14383d8e, 0x2823ef91, 0xaa47c347, 0x49f5114a, 0xb00327c8, 0xe5bc3909, 0xb62ec4bc, 0xc74c6516);
    Step(x, ws, 27, 0xb62ec4bc, 0xcde8037d, 0x1c2c2838, 0xc5d53d8d, 0xc74c6516, 0x14383d8e, 0x2823ef91, 0xaa47c347, 0xbf597fc7, 0x32663c5b, 0x77d37528, 0xedffbff8);
    Step(x, ws, 28, 0x77d37528, 0xb62ec4bc, 0xcde8037d, 0x1c2c2838, 0xedffbff8, 0xc74c6516, 0x14383d8e, 0x2823ef91, 0xc6e00bf3, 0x9d209d67, 0x363482c9, 0x6112a3b7);
    Step(x, ws, 29, 0x363482c9, 0x77d37528, 0xb62ec4bc, 0xcde8037d, 0x6112a3b7, 0xedffbff8, 0xc74c6516, 0x14383d8e, 0xd5a79147, 0xec8726cb, 0xa0060b30, 0xade79437);
    Step(x, ws, 30, 0xa0060b30, 0x363482c9, 0x77d37528, 0xb62ec4bc, 0xade79437, 0x6112a3b7, 0xedffbff8, 0xc74c6516, 0x06ca6351, 0x702138a4, 0xea992a22, 0x0109ab3a);
    Step(x, ws, 31, 0xea992a22, 0xa0060b30, 0x363482c9, 0x77d37528, 0x0109ab3a, 0xade79437, 0x6112a3b7, 0xedffbff8, 0x14292967, 0xd3b7973b, 0x73b33bf5, 0xba591112);
  }

  lemma AbcRounds32(x: Eight, ws: seq<word>)
    requires AbcWords(ws) && After(x, ws, 32, 0x73b33bf5, 0xea992a22, 0xa0060b30, 0x363482c9, 0xba591112, 0x0109ab3a, 0xade79437, 0x6112a3b7)
    ensures After(x, ws, 40, 0x79ea687a, 0x6dc57a8a, 0x34df1604, 0x41a65cb1, 0x1efbc0a0, 0xf0781bc8, 0xa507a53d, 0x0772a26b)
  {
    hide After;
    Step(x, ws, 32, 0x73b33bf5, 0xea992a22, 0xa0060b30, 0x363482c9, 0xba591112, 0x0109ab3a, 0xade79437, 0x6112a3b7, 0x27b70a85, 0x93f5997f, 0x98e12507, 0x9cd9f5f6);
    Step(x, ws, 33, 0x98e12507, 0x73b33bf5, 0xea992a22, 0xa0060b30, 0x9cd9f5f6, 0xba591112, 0x0109ab3a, 0xade79437, 0x2e1b2138, 0x3b68ba73, 0xfe604df5, 0x59249dd3);
    Step(x, ws, 34, 0xfe604df5, 0x98e12507, 0x73b33bf5, 0xea992a22, 0x59249dd3, 0x9cd9f5f6, 0xba591112, 0x0109ab3a, 0x4d2c6dfc, 0xaff4ffc1, 0xa9a7738c, 0x085f3833);
    Step(x, ws, 35, 0xa9a7738c, 0xfe604df5, 0x98e12507, 0x73b33bf5, 0x085f3833, 0x59249dd3, 0x9cd9f5f6, 0xba591112, 0x53380d13, 0xf10a5c62, 0x65a0cfe4, 0xf4b002d6);
    Step(x, ws, 36, 0x65a0cfe4, 0xa9a7738c, 0xfe604df5, 0x98e12507, 0xf4b002d6, 0x085f3833, 0x59249dd3, 0x9cd9f5f6, 0x650a7354, 0x0a8b3996, 0x41a65cb1, 0x0772a26b);
    Step(x, ws, 37, 0x41a65cb1, 0x65a0cfe4, 0xa9a7738c, 0xfe604df5, 0x0772a26b, 0xf4b002d6, 0x085f3833, 0x59249dd3, 0x766a0abb, 0x72af830a, 0x34df1604, 0xa507a53d);
    Step(x, ws, 38, 0x34df1604, 0x41a65cb1, 0x65a0cfe4, 0xa9a7738c, 0xa507a53d, 0x0772a26b, 0xf4b002d6, 0x085f3833, 0x81c2c92e, 0x9409e33e, 0x6dc57a8a, 0xf0781bc8);
    Step(x, ws, 39, 0x6dc57a8a, 0x34df1604, 0x41a65cb1, 0x65a0cfe4, 0xf0781bc8, 0xa507a53d, 0x0772a26b, 0xf4b002d6, 0x92722c85, 0x24641522, 0x79ea687a, 0x1efbc0a0);
  }

  lemma AbcRounds40(x: Eight, ws: seq<word>)
    requires AbcWords(ws) && After(x, ws, 40, 0x79ea687a, 0x6dc57a8a, 0x34df1604, 0x41a65cb1, 0x1efbc0a0, 0xf0781bc8, 0xa507a53d, 0x0772a26b)
    ensures After(x, ws, 48, 0x4172328d, 0xa14c14b0, 0x72ab4b91, 0x26628815, 0xfecf0bc6, 0xd57b94a9, 0xb7755da1, 0xa80f11f0)
  {
    hide After;
    Step(x, ws, 40, 0x79ea687a, 0x6dc57a8a, 0x34df1604, 0x41a65cb1, 0x1efbc0a0, 0xf0781bc8, 0xa507a53d, 0x0772a26b, 0xa2bfe8a1, 0x9f47bf94, 0xd6670766, 0x26352d63);
    Step(x, ws, 41, 0xd6670766, 0x79ea687a, 0x6dc57a8a, 0x34df1604, 0x26352d63, 0x1efbc0a0, 0xf0781bc8, 0xa507a53d, 0xa81a664b, 0xf0a64f5a, 0xdf46652f, 0x838b2711);
    Step(x, ws, 42, 0xdf46652f, 0xd6670766, 0x79ea687a, 0x6dc57a8a, 0x838b2711, 0x26352d63, 0x1efbc0a0, 0xf0781bc8, 0xc24b8b70, 0x3e246a79, 0x17aa0dfe, 0xdecd4715);
    Step(x, ws, 43, 0x17aa0dfe, 0xdf46652f, 0xd6670766, 0x79ea687a, 0xdecd4715, 0x838b2711, 0x26352d63, 0x1efbc0a0, 0xc76c51a3, 0x27333ba3, 0x9d4baf93, 0xfda24c2e);
    Step(x, ws, 44, 0x9d4baf93, 0x17aa0dfe, 0xdf46652f, 0xd6670766, 0xfda24c2e, 0xdecd4715, 0x838b2711, 0x26352d63, 0xd192e819, 0x0c4763f2, 0x26628815, 0xa80f11f0);
    Step(x, ws, 45, 0x26628815, 0x9d4baf93, 0x17aa0dfe, 0xdf46652f, 0xa80f11f0, 0xfda24c2e, 0xdecd4715, 0x838b2711, 0xd6990624, 0x840abf27, 0x72ab4b91, 0xb7755da1);
    Step(x, ws, 46, 0x72ab4b91, 0x26628815, 0x9d4baf93, 0x17aa0dfe, 0xb7755da1, 0xa80f11f0, 0xfda24c2e, 0xdecd4715, 0xf40e3585, 0x7a290d5d, 0xa14c14b0, 0xd57b94a9);
    Step(x, ws, 47, 0xa14c14b0, 0x72ab4b91, 0x26628815, 0x9d4baf93, 0xd57b94a9, 0xb7755da1, 0xa80f11f0, 0xfda24c2e, 0x106aa070, 0x065c43da, 0x4172328d, 0xfecf0bc6);
  }

  lemma AbcRounds48(x: Eight, ws: seq<word>)
    requires AbcWords(ws) && After(x, ws, 48, 0x4172328d, 0xa14c14b0, 0x72ab4b91, 0x26628815, 0xfecf0bc6, 0xd57b94a9, 0xb7755da1, 0xa80f11f0)
    ensures After(x, ws, 56, 0x38cc9913, 0x3ec45cdb, 0xf5702fdb, 0x101fd28f, 0x54cb266b, 0xe50e1b4f, 0x9f4787c3, 0x529e7d00)
  {
    hide After;
    Step(x, ws, 48, 0x4172328d, 0xa14c14b0, 0x72ab4b91, 0x26628815, 0xfecf0bc6, 0xd57b94a9, 0xb7755da1, 0xa80f11f0, 0x19a4c116, 0xfb3e89cb, 0x05757ceb, 0xbd714038);
    Step(x, ws, 49, 0x05757ceb, 0x4172328d, 0xa14c14b0, 0x72ab4b91, 0xbd714038, 0xfecf0bc6, 0xd57b94a9, 0xb7755da1, 0x1e376c08, 0xcc7617db, 0xf11bfaa8, 0x6e5c390c);
    Step(x, ws, 50, 0xf11bfaa8, 0x05757ceb, 0x4172328d, 0xa14c14b0, 0x6e5c390c, 0xbd714038, 0xfecf0bc6, 0xd57b94a9, 0x2748774c, 0xb9e66c34, 0x7a0508a1, 0x52f1ccf7);
    Step(x, ws, 51, 0x7a0508a1, 0xf11bfaa8, 0x05757ceb, 0x4172328d, 0x52f1ccf7, 0x6e5c390c, 0xbd714038, 0xfecf0bc6, 0x34b0bcb5, 0xa9993667, 0x886e7a22, 0x49231c1e);
    Step(x, ws, 52, 0x886e7a22, 0x7a0508a1, 0xf11bfaa8, 0x05757ceb, 0x49231c1e, 0x52f1ccf7, 0x6e5c390c, 0xbd714038, 0x391c0cb3, 0x84badedd, 0x101fd28f, 0x529e7d00);
    Step(x, ws, 53, 0x101fd28f, 0x886e7a22, 0x7a0508a1, 0xf11bfaa8, 0x529e7d00, 0x49231c1e, 0x52f1ccf7, 0x6e5c390c, 0x4ed8aa4a, 0xc21462bc, 0xf5702fdb, 0x9f4787c3);
    Step(x, ws, 54, 0xf5702fdb, 0x101fd28f, 0x886e7a22, 0x7a0508a1, 0x9f4787c3, 0x529e7d00, 0x49231c1e, 0x52f1ccf7, 0x5b9cca4f, 0x1487472c, 0x3ec45cdb, 0xe50e1b4f);
    Step(x, ws, 55, 0x3ec45cdb, 0xf5702fdb, 0x101fd28f, 0x886e7a22, 0xe50e1b4f, 0x9f4787c3, 0x529e7d00, 0x49231c1e, 0x682e6ff3, 0xb20f7a99, 0x38cc9913, 0x54cb266b);
  }

  lemma AbcRounds56(x: Eight, ws: seq<word>)
    requires AbcWords(ws) && After(x, ws, 56, 0x38cc9913, 0x3ec45cdb, 0xf5702fdb, 0x101fd28f, 0x54cb266b, 0xe50e1b4f, 0x9f4787c3, 0x529e7d00)
    ensures After(x, ws, 64, 0x506e3058, 0xd39a2165, 0x04d24d6c, 0xb85e2ce9, 0x5ef50f24, 0xfb121210, 0x948d25b6, 0x961f4894)
  {
    hide After;
    Step(x, ws, 56, 0x38cc9913, 0x3ec45cdb, 0xf5702fdb, 0x101fd28f, 0x54cb266b, 0xe50e1b4f, 0x9f4787c3, 0x529e7d00, 0x748f82ee, 0xef57b9cd, 0xfcd1887b, 0x9b5e906c);
    Step(x, ws, 57, 0xfcd1887b, 0x38cc9913, 0x3ec45cdb, 0xf5702fdb, 0x9b5e906c, 0x54cb266b, 0xe50e1b4f, 0x9f4787c3, 0x78a5636f, 0xebe6b238, 0xc062d46f, 0x7e44008e);
    Step(x, ws, 58, 0xc062d46f, 0xfcd1887b, 0x38cc9913, 0x3ec45cdb, 0x7e44008e, 0x9b5e906c, 0x54cb266b, 0xe50e1b4f, 0x84c87814, 0x9fe3095e, 0xffb70472, 0x6d83bfc6);
    Step(x, ws, 59, 0xffb70472, 0xc062d46f, 0xfcd1887b, 0x38cc9913, 0x6d83bfc6, 0x7e44008e, 0x9b5e906c, 0x54cb266b, 0x8cc70208, 0x78bc8d4b, 0xb6ae8fff, 0xb21bad3d);
    Step(x, ws, 60, 0xb6ae8fff, 0xffb70472, 0xc062d46f, 0xfcd1887b, 0xb21bad3d, 0x6d83bfc6, 0x7e44008e, 0x9b5e906c, 0x90befffa, 0xa43fcf15, 0xb85e2ce9, 0x961f4894);
    Step(x, ws, 61, 0xb85e2ce9, 0xb6ae8fff, 0xffb70472, 0xc062d46f, 0x961f4894, 0xb21bad3d, 0x6d83bfc6, 0x7e44008e, 0xa4506ceb, 0x668b2ff8, 0x04d24d6c, 0x948d25b6);
    Step(x, ws, 62, 0x04d24d6c, 0xb85e2ce9, 0xb6ae8fff, 0xffb70472, 0x948d25b6, 0x961f4894, 0xb21bad3d, 0x6d83bfc6, 0xbef9a3f7, 0xeeaba2cc, 0xd39a2165, 0xfb121210);
    Step(x, ws, 63, 0xd39a2165, 0x04d24d6c, 0xb85e2ce9, 0xb6ae8fff, 0xfb121210, 0x948d25b6, 0x961f4894, 0xb21bad3d, 0xc67178f2, 0x12b1edeb, 0x506e3058, 0x5ef50f24);
  }

  lemma AbcStart(ws: seq<word>)
    requires |ws| == 64
    ensures After(InitialHash(), ws, 0, 0x6a09e667, 0xbb67ae85, 0x3c6ef372, 0xa54ff53a, 0x510e527f, 0x9b05688c, 0x1f83d9ab, 0x5be0cd19)
  {
  }

  lemma AbcCompress(block: seq<word>)
    requires |block| == 16 && AbcWords0(block + Schedule(block, 64)[16..])
    ensures Compress(InitialHash(), block)
            == Eight(0xba7816bf, 0x8f01cfea, 0x414140de, 0x5dae2223, 0xb00361a3, 0x96177a9c, 0xb410ff61, 0xf20015ad)
  {
    hide Rounds, After, AbcWords0, AbcWords16, AbcWords32, AbcWords48, Follows, Sum, InitialHash, Schedule;
    var x, ws := InitialHash(), Schedule(block, 64);
    ScheduleIs(block, 64);
    assert ws == block + ws[16..];
    hide IsSchedule;
    AbcStart(ws);
    AbcSchedule16(ws, block);
    AbcSchedule32(ws, block);
    AbcSchedule48(ws, block);
    AbcRounds0(x, ws);
    AbcRounds8(x, ws);
    AbcRounds16(x, ws);
    AbcRounds24(x, ws);
    AbcRounds32(x, ws);
    AbcRounds40(x, ws);
    AbcRounds48(x, ws);
    AbcRounds56(x, ws);
    AbcSum(Rounds(x, ws, 64), x, ws);
  }

  lemma AbcSum(r: Eight, x: Eight, ws: seq<word>)
    requires |ws| == 64 && r == Rounds(x, ws, 64) && x == InitialHash()
    requires After(x, ws, 64, 0x506e3058, 0xd39a2165, 0x04d24d6c, 0xb85e2ce9, 0x5ef50f24, 0xfb121210, 0x948d25b6, 0x961f4894)
    ensures Sum(r, x) == Eight(0xba7816bf, 0x8f01cfea, 0x414140de, 0x5dae2223, 0xb00361a3, 0x96177a9c, 0xb410ff61, 0xf20015ad)
  {
    hide Rounds;
    assert Sum(Eight(0x506e3058, 0xd39a2165, 0x04d24d6c, 0xb85e2ce9, 0x5ef50f24, 0xfb121210, 0x948d25b6, 0x961f4894), InitialHash()) == Eight(0xba7816bf, 0x8f01cfea, 0x414140de, 0x5dae2223, 0xb00361a3, 0x96177a9c, 0xb410ff61, 0xf20015ad);
  }

  lemma {:induction false} ZeroBE(k: nat)
    ensures BE(0, k) == Zeros(k)
  {
    hide ToByte;
    if k == 0 {
    } else {
      ZeroBE(k - 1);
      SmallBytes();
    }
  }

  lemma SmallBytes()
    ensures ToByte(0) == 0 && ToByte(24) == 24
  {
    hide ToByte;
    ToByteIs(0, 0);
    ToByteIs(24, 24);
  }

  /** The one block of "abc": the message, the one bit, and the length 24. */
  lemma AbcPadded()
    ensures Padded(ABC) == ABC + [0x80] + Zeros(59) + [24]
  {
    ZeroBE(7);
    SmallBytes();
    hide BE, ToByte;
    Sha256Buffer.BEUnfold(24, 8);
    assert Zeros(52) + Zeros(7) == Zeros(59);
    assert BE(24, 8) == Zeros(7) + [24];
  }

  lemma AbcBlockIs(ws: seq<word>)
    requires |ws| == 64 && ws[..16] == MessageBlock(ABC + [0x80] + Zeros(59) + [24], 0)
    ensures AbcWords0(ws)
  {
    hide Join;
    var padded := ABC + [0x80] + Zeros(59) + [24];
    AbcJoins();
    assert padded[0] == 0x61 && padded[1] == 0x62 && padded[2] == 0x63 && padded[3] == 0x80;
    forall j | 4 <= j < 63
      ensures padded[j] == 0
    {
    }
    assert padded[63] == 24;
    forall t | 0 <= t < 16
      ensures ws[t] == MessageWord(padded, 0, t)
    {
      assert ws[..16][t] == ws[t];
    }
  }

  lemma AbcJoins()
    ensures Join(0x61, 0x62, 0x63, 0x80) == 0x61626380 && Join(0, 0, 0, 0) == 0 && Join(0, 0, 0, 24) == 24
  {
  }

  /** The digest of "abc" is the one FIPS 180-4 gives. */
  lemma AbcDigest()
    ensures Digest(ABC) == Eight(0xba7816bf, 0x8f01cfea, 0x414140de, 0x5dae2223, 0xb00361a3, 0x96177a9c, 0xb410ff61, 0xf20015ad)
  {
    hide Compress, MessageBlock, InitialHash, BE, ZeroBytes, Schedule;
    AbcPadded();
    var padded := Padded(ABC);
    var block := MessageBlock(padded, 0);
    assert HashValue(padded, 1) == Compress(HashValue(padded, 0), block);
    ScheduleIs(block, 64);
    var ws := block + Schedule(block, 64)[16..];
    assert ws[..16] == block;
    AbcBlockIs(ws);
    AbcCompress(block);
  }

  lemma AbcHexWords()
    ensures HexWord(0xba7816bf) == "ba7816bf"
    ensures HexWord(0x8f01cfea) == "8f01cfea"
    ensures HexWord(0x414140de) == "414140de"
    ensures HexWord(0x5dae2223) == "5dae2223"
    ensures HexWord(0xb00361a3) == "b00361a3"
    ensures HexWord(0x96177a9c) == "96177a9c"
    ensures HexWord(0xb410ff61) == "b410ff61"
    ensures HexWord(0xf20015ad) == "f20015ad"
  {
  }

  /** And so is the string returned for it. */
  lemma AbcHex()
    ensures HexDigest(ABC) == "ba7816bf8f01cfea414140de5dae2223b00361a396177a9cb410ff61f20015ad"
  {
    hide Digest, HexWord;
    AbcDigest();
    AbcHexWords();
    AbcString();
  }

  lemma AbcString()
    ensures "ba7816bf" + "8f01cfea" + "414140de" + "5dae2223" + "b00361a3" + "96177a9c" + "b410ff61" + "f20015ad"
            == "ba7816bf8f01cfea414140de5dae2223b00361a396177a9cb410ff61f20015ad"
  {
    assert "ba7816bf" + "8f01cfea" == "ba7816bf8f01cfea";
    assert "ba7816bf8f01cfea" + "414140de" == "ba7816bf8f01cfea414140de";
    assert "ba7816bf8f01cfea414140de" + "5dae2223" == "ba7816bf8f01cfea414140de5dae2223";
    assert "ba7816bf8f01cfea414140de5dae2223" + "b00361a3" == "ba7816bf8f01cfea414140de5dae2223b00361a3";
    assert "ba7816bf8f01cfea414140de5dae2223b00361a3" + "96177a9c" == "ba7816bf8f01cfea414140de5dae2223b00361a396177a9c";
    assert "ba7816bf8f01cfea414140de5dae2223b00361a396177a9c" + "b410ff61" == "ba7816bf8f01cfea414140de5dae2223b00361a396177a9cb410ff61";
    assert "ba7816bf8f01cfea414140de5dae2223b00361a396177a9cb410ff61" + "f20015ad" == "ba7816bf8f01cfea414140de5dae2223b00361a396177a9cb410ff61f20015ad";
  }

  // ---------- any message ----------

  /** Byte `k` of a word, most significant first. */
  function BigEndianByte(w: word, k: nat): byte
    requires k < 4
  {
    match k
    case 0 => (w >> 24) as byte
    case 1 => ((w >> 16) & 0xff) as byte
    case 2 => ((w >> 8) & 0xff) as byte
    case 3 => (w & 0xff) as byte
  }

  lemma JoinSpells(b0: byte, b1: byte, b2: byte, b3: byte)
    ensures var w := Join(b0, b1, b2, b3);
            BigEndianByte(w, 0) == b0 && BigEndianByte(w, 1) == b1 && BigEndianByte(w, 2) == b2 && BigEndianByte(w, 3) == b3
  {
  }

  /** Block `i` written out word by word gives bytes 64 i to 64 i + 63 of the padded message. */
  lemma BlockSpells(padded: seq<byte>, i: nat, t: nat, k: nat)
    requires 64 * i + 64 <= |padded| && t < 16 && k < 4
    ensures BigEndianByte(MessageBlock(padded, i)[t], k) == padded[64 * i + 4 * t + k]
  {
    hide Join, BigEndianByte;
    var at := 64 * i + 4 * t;
    JoinSpells(padded[at], padded[at + 1], padded[at + 2], padded[at + 3]);
    assert k == 0 || k == 1 || k == 2 || k == 3;
  }

  type Block = s: seq<word> | |s| == 16 witness seq(16, _ => 0)

  /** The hash value carried through the blocks, first to last. */
  function HashFrom(h: Eight, blocks: seq<Block>): Eight
    decreases |blocks|
  {
    hide Compress;
    if blocks == [] then h else HashFrom(Compress(h, blocks[0]), blocks[1..])
  }

  lemma {:induction false} HashFromAppend(h: Eight, blocks: seq<Block>, last: Block)
    ensures HashFrom(h, blocks + [last]) == Compress(HashFrom(h, blocks), last)
    decreases |blocks|
  {
    hide Compress;
    if blocks == [] {
      assert (blocks + [last])[1..] == [];
    } else {
      assert (blocks + [last])[1..] == blocks[1..] + [last];
      HashFromAppend(Compress(h, blocks[0]), blocks[1..], last);
    }
  }

  function BlocksOf(padded: seq<byte>, n: nat): (blocks: seq<Block>)
    requires 64 * n <= |padded|
    ensures |blocks| == n
  {
    hide MessageBlock;
    seq(n, i requires 0 <= i < n => MessageBlock(padded, i))
  }

  /** The digest carries the initial hash through the blocks in order, each once. */
  lemma {:induction false} HashValueFolds(padded: seq<byte>, n: nat)
    requires 64 * n <= |padded|
    ensures HashValue(padded, n) == HashFrom(InitialHash(), BlocksOf(padded, n))
  {
    hide Compress, MessageBlock, InitialHash;
    if n == 0 {
    } else {
      HashValueFolds(padded, n - 1);
      HashFromAppend(InitialHash(), BlocksOf(padded, n - 1), MessageBlock(padded, n - 1));
      assert BlocksOf(padded, n) == BlocksOf(padded, n - 1) + [MessageBlock(padded, n - 1)];
    }
  }
}
