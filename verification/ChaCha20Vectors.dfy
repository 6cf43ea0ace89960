/** The stream cipher checked against values of its own: the vectors of RFC 8439 for the rounds, and a whole
    block under the source's four constants, which are not the RFC's. */
module ChaCha20Vectors {
  import opened Bytes
  import opened ChaCha20

  /** Section 2.1.1 of RFC 8439. */
  lemma QuarterRoundVector()
    ensures QuarterRound(Quad(0x11111111, 0x01020304, 0x9b8d6f43, 0x01234567))
            == Quad(0xea2a92f4, 0xcb1cf8ce, 0x4581472e, 0x5881c4bb)
  {
  }

  // ---------- rounds on a square ----------

  /** The state as a square of four by four words, column by column. */
  datatype Grid = Grid(c0: Quad, c1: Quad, c2: Quad, c3: Quad)

  function GridOf(s: State): Grid {
    Grid(At(s, 0, 4, 8, 12), At(s, 1, 5, 9, 13), At(s, 2, 6, 10, 14), At(s, 3, 7, 11, 15))
  }

  function EachColumn(g: Grid): Grid {
    Grid(QuarterRound(g.c0), QuarterRound(g.c1), QuarterRound(g.c2), QuarterRound(g.c3))
  }

  /** Row `j` turned left by `j` columns, so that diagonals stand as columns. */
  function Turn(g: Grid): Grid {
    Grid(Quad(g.c0.a, g.c1.b, g.c2.c, g.c3.d), Quad(g.c1.a, g.c2.b, g.c3.c, g.c0.d),
         Quad(g.c2.a, g.c3.b, g.c0.c, g.c1.d), Quad(g.c3.a, g.c0.b, g.c1.c, g.c2.d))
  }

  function TurnBack(g: Grid): Grid {
    Grid(Quad(g.c0.a, g.c3.b, g.c2.c, g.c1.d), Quad(g.c1.a, g.c0.b, g.c3.c, g.c2.d),
         Quad(g.c2.a, g.c1.b, g.c0.c, g.c3.d), Quad(g.c3.a, g.c2.b, g.c1.c, g.c0.d))
  }

  function DoubleRound(g: Grid): Grid {
    TurnBack(EachColumn(Turn(EachColumn(g))))
  }

  /** One pass of the round loop is a quarter round on every column and then on every diagonal. */
  lemma PassIsDoubleRound(s: State)
    ensures GridOf(Diagonals(Columns(s))) == DoubleRound(GridOf(s))
  {
    hide QuarterRound;
    ColumnsOfGrid(s);
    DiagonalsOfGrid(Columns(s));
  }

  lemma ColumnsOfGrid(s: State)
    ensures GridOf(Columns(s)) == EachColumn(GridOf(s))
  {
    hide QuarterRound;
  }

  lemma DiagonalsOfGrid(s: State)
    ensures GridOf(Diagonals(s)) == TurnBack(EachColumn(Turn(GridOf(s))))
  {
    hide QuarterRound;
  }

  predicate After(s: State, n: nat, g: Grid) {
    GridOf(Rounds(s, n)) == g
  }

  lemma Pass(s: State, n: nat, g: Grid, h: Grid)
    requires After(s, n, g) && DoubleRound(g) == h
    ensures After(s, n + 1, h)
  {
    hide Columns, Diagonals, DoubleRound, GridOf;
    PassIsDoubleRound(Rounds(s, n));
  }

  // ---------- section 2.3.2 of RFC 8439 ----------

  lemma Standard0(s: State)
    requires After(s, 0, Grid(Quad(0x61707865, 0x03020100, 0x13121110, 0x00000001), Quad(0x3320646e, 0x07060504, 0x17161514, 0x09000000), Quad(0x79622d32, 0x0b0a0908, 0x1b1a1918, 0x4a000000), Quad(0x6b206574, 0x0f0e0d0c, 0x1f1e1d1c, 0x00000000)))
    ensures After(s, 2, Grid(Quad(0xcf1a7584, 0x901d2f40, 0x2dafb216, 0x10aef18d), Quad(0x048927ec, 0x7974b81c, 0x27c89cd6, 0x16218765), Quad(0x54051fda, 0x378dcfb4, 0xcd3c9aa0, 0x68f76705), Quad(0xc244ff28, 0xcd47fd0e, 0x79fc89c7, 0x04d6ee22)))
  {
    hide After;
    Pass(s, 0, Grid(Quad(0x61707865, 0x03020100, 0x13121110, 0x00000001), Quad(0x3320646e, 0x07060504, 0x17161514, 0x09000000), Quad(0x79622d32, 0x0b0a0908, 0x1b1a1918, 0x4a000000), Quad(0x6b206574, 0x0f0e0d0c, 0x1f1e1d1c, 0x00000000)),
         Grid(Quad(0xcd52e917, 0xc4b7cd22, 0x7bf7d740, 0x6b0d58a3), Quad(0x85ab03b4, 0x5c2e187a, 0x7eddd644, 0x6798471a), Quad(0xb3457395, 0xc95eb461, 0xf1a1bdf5, 0xd737f167), Quad(0xf96de7dd, 0x316c801a, 0x761246ca, 0xf173888d)));
    Pass(s, 1, Grid(Quad(0xcd52e917, 0xc4b7cd22, 0x7bf7d740, 0x6b0d58a3), Quad(0x85ab03b4, 0x5c2e187a, 0x7eddd644, 0x6798471a), Quad(0xb3457395, 0xc95eb461, 0xf1a1bdf5, 0xd737f167), Quad(0xf96de7dd, 0x316c801a, 0x761246ca, 0xf173888d)),
         Grid(Quad(0xcf1a7584, 0x901d2f40, 0x2dafb216, 0x10aef18d), Quad(0x048927ec, 0x7974b81c, 0x27c89cd6, 0x16218765), Quad(0x54051fda, 0x378dcfb4, 0xcd3c9aa0, 0x68f76705), Quad(0xc244ff28, 0xcd47fd0e, 0x79fc89c7, 0x04d6ee22)));
  }

  lemma Standard2(s: State)
    requires After(s, 2, Grid(Quad(0xcf1a7584, 0x901d2f40, 0x2dafb216, 0x10aef18d), Quad(0x048927ec, 0x7974b81c, 0x27c89cd6, 0x16218765), Quad(0x54051fda, 0x378dcfb4, 0xcd3c9aa0, 0x68f76705), Quad(0xc244ff28, 0xcd47fd0e, 0x79fc89c7, 0x04d6ee22)))
    ensures After(s, 4, Grid(Quad(0x9a2d3589, 0x0a1bffc6, 0xe46c6354, 0x2687d476), Quad(0x0b23fc4e, 0x5e5993f7, 0xc9503229, 0x54e65231), Quad(0x40af3b6b, 0x9904c2e7, 0x04fef5aa, 0x3594ffc5), Quad(0xceea8144, 0x0d334718, 0xf8933f72, 0x2b3bb2ca)))
  {
    hide After;
    Pass(s, 2, Grid(Quad(0xcf1a7584, 0x901d2f40, 0x2dafb216, 0x10aef18d), Quad(0x048927ec, 0x7974b81c, 0x27c89cd6, 0x16218765), Quad(0x54051fda, 0x378dcfb4, 0xcd3c9aa0, 0x68f76705), Quad(0xc244ff28, 0xcd47fd0e, 0x79fc89c7, 0x04d6ee22)),
         Grid(Quad(0x03a14032, 0xa7143ae0, 0xc90c6b18, 0xba35d777), Quad(0x66b15927, 0xa09b33dd, 0x5a202413, 0xb360f1bf), Quad(0x9d6b6b42, 0xa5daaf88, 0xc20e01b6, 0x8178315b), Quad(0xb84c4109, 0x2fd91a73, 0x72cd6b74, 0x2cd11b1a)));
    Pass(s, 3, Grid(Quad(0x03a14032, 0xa7143ae0, 0xc90c6b18, 0xba35d777), Quad(0x66b15927, 0xa09b33dd, 0x5a202413, 0xb360f1bf), Quad(0x9d6b6b42, 0xa5daaf88, 0xc20e01b6, 0x8178315b), Quad(0xb84c4109, 0x2fd91a73, 0x72cd6b74, 0x2cd11b1a)),
         Grid(Quad(0x9a2d3589, 0x0a1bffc6, 0xe46c6354, 0x2687d476), Quad(0x0b23fc4e, 0x5e5993f7, 0xc9503229, 0x54e65231), Quad(0x40af3b6b, 0x9904c2e7, 0x04fef5aa, 0x3594ffc5), Quad(0xceea8144, 0x0d334718, 0xf8933f72, 0x2b3bb2ca)));
  }

  lemma Standard4(s: State)
    requires After(s, 4, Grid(Quad(0x9a2d3589, 0x0a1bffc6, 0xe46c6354, 0x2687d476), Quad(0x0b23fc4e, 0x5e5993f7, 0xc9503229, 0x54e65231), Quad(0x40af3b6b, 0x9904c2e7, 0x04fef5aa, 0x3594ffc5), Quad(0xceea8144, 0x0d334718, 0xf8933f72, 0x2b3bb2ca)))
    ensures After(s, 6, Grid(Quad(0x04a3131a, 0x36cc86c7, 0x07d13aca, 0x33b6686d), Quad(0x66176309, 0xbf8a4465, 0xeb0be9af, 0x795cc671), Quad(0x0415bab1, 0xf77dd720, 0x61599491, 0xc0049972), Quad(0x61b880a2, 0xfc0bdc90, 0x918512dc, 0xa0a81bde)))
  {
    hide After;
    Pass(s, 4, Grid(Quad(0x9a2d3589, 0x0a1bffc6, 0xe46c6354, 0x2687d476), Quad(0x0b23fc4e, 0x5e5993f7, 0xc9503229, 0x54e65231), Quad(0x40af3b6b, 0x9904c2e7, 0x04fef5aa, 0x3594ffc5), Quad(0xceea8144, 0x0d334718, 0xf8933f72, 0x2b3bb2ca)),
         Grid(Quad(0xc53318c5, 0x26d7cf73, 0xae2ca8db, 0x9e5ec228), Quad(0xca325d96, 0x6088d379, 0x42f67c72, 0x7d85a9f3), Quad(0x7e7d11cb, 0xc0f0e9bd, 0x71669aca, 0x201d0756), Quad(0x3404e2ca, 0xe310cdb9, 0x975c171d, 0x63fa6953)));
    Pass(s, 5, Grid(Quad(0xc53318c5, 0x26d7cf73, 0xae2ca8db, 0x9e5ec228), Quad(0xca325d96, 0x6088d379, 0x42f67c72, 0x7d85a9f3), Quad(0x7e7d11cb, 0xc0f0e9bd, 0x71669aca, 0x201d0756), Quad(0x3404e2ca, 0xe310cdb9, 0x975c171d, 0x63fa6953)),
         Grid(Quad(0x04a3131a, 0x36cc86c7, 0x07d13aca, 0x33b6686d), Quad(0x66176309, 0xbf8a4465, 0xeb0be9af, 0x795cc671), Quad(0x0415bab1, 0xf77dd720, 0x61599491, 0xc0049972), Quad(0x61b880a2, 0xfc0bdc90, 0x918512dc, 0xa0a81bde)));
  }

  lemma Standard6(s: State)
    requires After(s, 6, Grid(Quad(0x04a3131a, 0x36cc86c7, 0x07d13aca, 0x33b6686d), Quad(0x66176309, 0xbf8a4465, 0xeb0be9af, 0x795cc671), Quad(0x0415bab1, 0xf77dd720, 0x61599491, 0xc0049972), Quad(0x61b880a2, 0xfc0bdc90, 0x918512dc, 0xa0a81bde)))
    ensures After(s, 8, Grid(Quad(0xca5c85dd, 0x982563f8, 0x1c25931a, 0xa9b751fb), Quad(0x93a4f90e, 0x712aa9ff, 0x5180bb10, 0x382f3ce2), Quad(0xd9f0df58, 0x279a61e8, 0x779c27e7, 0x8db1757d), Quad(0x26dd82dd, 0x970f72bd, 0x54077e08, 0xcc38080b)))
  {
    hide After;
    Pass(s, 6, Grid(Quad(0x04a3131a, 0x36cc86c7, 0x07d13aca, 0x33b6686d), Quad(0x66176309, 0xbf8a4465, 0xeb0be9af, 0x795cc671), Quad(0x0415bab1, 0xf77dd720, 0x61599491, 0xc0049972), Quad(0x61b880a2, 0xfc0bdc90, 0x918512dc, 0xa0a81bde)),
         Grid(Quad(0x9b70f51f, 0x93b08686, 0xd839165e, 0xa609f555), Quad(0x7ea8ac11, 0x6a4c50ae, 0x4c06e28a, 0x2c246549), Quad(0x21e54da9, 0x19212a5a, 0xd3fde99e, 0x95151853), Quad(0xca393b2f, 0x9b032958, 0x26acc13d, 0x2c847a0d)));
    Pass(s, 7, Grid(Quad(0x9b70f51f, 0x93b08686, 0xd839165e, 0xa609f555), Quad(0x7ea8ac11, 0x6a4c50ae, 0x4c06e28a, 0x2c246549), Quad(0x21e54da9, 0x19212a5a, 0xd3fde99e, 0x95151853), Quad(0xca393b2f, 0x9b032958, 0x26acc13d, 0x2c847a0d)),
         Grid(Quad(0xca5c85dd, 0x982563f8, 0x1c25931a, 0xa9b751fb), Quad(0x93a4f90e, 0x712aa9ff, 0x5180bb10, 0x382f3ce2), Quad(0xd9f0df58, 0x279a61e8, 0x779c27e7, 0x8db1757d), Quad(0x26dd82dd, 0x970f72bd, 0x54077e08, 0xcc38080b)));
  }

  lemma Standard8(s: State)
    requires After(s, 8, Grid(Quad(0xca5c85dd, 0x982563f8, 0x1c25931a, 0xa9b751fb), Quad(0x93a4f90e, 0x712aa9ff, 0x5180bb10, 0x382f3ce2), Quad(0xd9f0df58, 0x279a61e8, 0x779c27e7, 0x8db1757d), Quad(0x26dd82dd, 0x970f72bd, 0x54077e08, 0xcc38080b)))
    ensures After(s, 10, Grid(Quad(0x837778ab, 0xc4f2d0c7, 0x335271c2, 0xd19c12b4), Quad(0xe238d763, 0xfc62bb2f, 0xf29489f3, 0xb04e16de), Quad(0xa67ae21e, 0x8fa018fc, 0xeabda8fc, 0x9e83d0cb), Quad(0x5950bb2f, 0x3f5ec7b7, 0x82e46ebd, 0x4e3c50a2)))
  {
    hide After;
    Pass(s, 8, Grid(Quad(0xca5c85dd, 0x982563f8, 0x1c25931a, 0xa9b751fb), Quad(0x93a4f90e, 0x712aa9ff, 0x5180bb10, 0x382f3ce2), Quad(0xd9f0df58, 0x279a61e8, 0x779c27e7, 0x8db1757d), Quad(0x26dd82dd, 0x970f72bd, 0x54077e08, 0xcc38080b)),
         Grid(Quad(0xb6b87de6, 0xdc33c122, 0x28c1fcb3, 0x21078b22), Quad(0x9a016148, 0x98e18fa3, 0xc4b38f9d, 0xb193e7a3), Quad(0x93859815, 0x5ffbe8fc, 0x83e2f5d7, 0xb2f49389), Quad(0x4915e6cc, 0xf7154b8b, 0x7d24b98b, 0x6cde6026)));
    Pass(s, 9, Grid(Quad(0xb6b87de6, 0xdc33c122, 0x28c1fcb3, 0x21078b22), Quad(0x9a016148, 0x98e18fa3, 0xc4b38f9d, 0xb193e7a3), Quad(0x93859815, 0x5ffbe8fc, 0x83e2f5d7, 0xb2f49389), Quad(0x4915e6cc, 0xf7154b8b, 0x7d24b98b, 0x6cde6026)),
         Grid(Quad(0x837778ab, 0xc4f2d0c7, 0x335271c2, 0xd19c12b4), Quad(0xe238d763, 0xfc62bb2f, 0xf29489f3, 0xb04e16de), Quad(0xa67ae21e, 0x8fa018fc, 0xeabda8fc, 0x9e83d0cb), Quad(0x5950bb2f, 0x3f5ec7b7, 0x82e46ebd, 0x4e3c50a2)));
  }

  /** The ten double rounds on the section's start state, and the words added back, give its block. */
  lemma StandardBlock()
    ensures var s: State := [0x61707865, 0x3320646e, 0x79622d32, 0x6b206574,
                               0x03020100, 0x07060504, 0x0b0a0908, 0x0f0e0d0c,
                               0x13121110, 0x17161514, 0x1b1a1918, 0x1f1e1d1c,
                               0x00000001, 0x09000000, 0x4a000000, 0x00000000];
            AddWords(Rounds(s, DOUBLE_ROUNDS), s)
            == [0xe4e7f110, 0x15593bd1, 0x1fdd0f50, 0xc47120a3,
                0xc7f4d1c7, 0x0368c033, 0x9aaa2204, 0x4e6cd4c3,
                0x466482d2, 0x09aa9f07, 0x05d7c214, 0xa2028bd9,
                0xd19c12b5, 0xb94e16de, 0xe883d0cb, 0x4e3c50a2]
  {
    var s: State := [0x61707865, 0x3320646e, 0x79622d32, 0x6b206574,
                       0x03020100, 0x07060504, 0x0b0a0908, 0x0f0e0d0c,
                       0x13121110, 0x17161514, 0x1b1a1918, 0x1f1e1d1c,
                       0x00000001, 0x09000000, 0x4a000000, 0x00000000];
    assert After(s, 0, Grid(Quad(0x61707865, 0x03020100, 0x13121110, 0x00000001), Quad(0x3320646e, 0x07060504, 0x17161514, 0x09000000), Quad(0x79622d32, 0x0b0a0908, 0x1b1a1918, 0x4a000000), Quad(0x6b206574, 0x0f0e0d0c, 0x1f1e1d1c, 0x00000000)));
    hide Rounds, After;
    Standard0(s);
    Standard2(s);
    Standard4(s);
    Standard6(s);
    Standard8(s);
    StandardSum(s, Rounds(s, 10));
  }

  lemma StandardSum(s: State, r: State)
    requires GridOf(s) == Grid(Quad(0x61707865, 0x03020100, 0x13121110, 0x00000001), Quad(0x3320646e, 0x07060504, 0x17161514, 0x09000000), Quad(0x79622d32, 0x0b0a0908, 0x1b1a1918, 0x4a000000), Quad(0x6b206574, 0x0f0e0d0c, 0x1f1e1d1c, 0x00000000))
    requires GridOf(r) == Grid(Quad(0x837778ab, 0xc4f2d0c7, 0x335271c2, 0xd19c12b4), Quad(0xe238d763, 0xfc62bb2f, 0xf29489f3, 0xb04e16de), Quad(0xa67ae21e, 0x8fa018fc, 0xeabda8fc, 0x9e83d0cb), Quad(0x5950bb2f, 0x3f5ec7b7, 0x82e46ebd, 0x4e3c50a2))
    ensures AddWords(r, s) == [0xe4e7f110, 0x15593bd1, 0x1fdd0f50, 0xc47120a3,
                              0xc7f4d1c7, 0x0368c033, 0x9aaa2204, 0x4e6cd4c3,
                              0x466482d2, 0x09aa9f07, 0x05d7c214, 0xa2028bd9,
                              0xd19c12b5, 0xb94e16de, 0xe883d0cb, 0x4e3c50a2]
  {
  }

  // ---------- the source's own block ----------

  /** The session key both programs carry, and the nonce of sequence number 1. */
  function Key(): (k: seq<byte>)
    ensures |k| == 32
  {
    [0x01, 0x02, 0x03, 0x04, 0x05, 0x06, 0x07, 0x08] + [0x09, 0x0A, 0x0B, 0x0C, 0x0D, 0x0E, 0x0F, 0x10]
    + [0x11, 0x12, 0x13, 0x14, 0x15, 0x16, 0x17, 0x18] + [0x19, 0x1A, 0x1B, 0x1C, 0x1D, 0x1E, 0x1F, 0x20]
  }

  function NonceOne(): (n: seq<byte>)
    ensures |n| == 12
  {
    [1, 0, 0, 0, 0, 0, 0, 0, 0, 0, 0, 0]
  }

  lemma Source0(s: State)
    requires After(s, 0, Grid(Quad(0x61707865, 0x04030201, 0x14131211, 0x00000001), Quad(0x33303232, 0x08070605, 0x18171615, 0x00000001), Quad(0x7962326d, 0x0c0b0a09, 0x1c1b1a19, 0x00000000), Quad(0x6b206574, 0x100f0e0d, 0x201f1e1d, 0x00000000)))
    ensures After(s, 2, Grid(Quad(0x45045aec, 0x4ee9a878, 0x0ae33fab, 0x527b4a24), Quad(0xeff25927, 0x35815bcd, 0xeeee1984, 0x3a4f7ee8), Quad(0x2bd2a038, 0xb4a1044c, 0x188a465a, 0x07830c19), Quad(0x5d4a1918, 0x726fefc2, 0x4be9dac9, 0xea48323e)))
  {
    hide After;
    Pass(s, 0, Grid(Quad(0x61707865, 0x04030201, 0x14131211, 0x00000001), Quad(0x33303232, 0x08070605, 0x18171615, 0x00000001), Quad(0x7962326d, 0x0c0b0a09, 0x1c1b1a19, 0x00000000), Quad(0x6b206574, 0x100f0e0d, 0x201f1e1d, 0x00000000)),
         Grid(Quad(0x383570ef, 0x8714e65f, 0x25d6fdbb, 0x78b6f0f9), Quad(0xb175f5a8, 0x42abcaef, 0xa5046b65, 0x7fe74b1b), Quad(0x71c15bdd, 0x696f5cdb, 0x41469a28, 0x863d74f3), Quad(0xc305253a, 0xdb44663a, 0x775561a4, 0x00ca6e0f)));
    Pass(s, 1, Grid(Quad(0x383570ef, 0x8714e65f, 0x25d6fdbb, 0x78b6f0f9), Quad(0xb175f5a8, 0x42abcaef, 0xa5046b65, 0x7fe74b1b), Quad(0x71c15bdd, 0x696f5cdb, 0x41469a28, 0x863d74f3), Quad(0xc305253a, 0xdb44663a, 0x775561a4, 0x00ca6e0f)),
         Grid(Quad(0x45045aec, 0x4ee9a878, 0x0ae33fab, 0x527b4a24), Quad(0xeff25927, 0x35815bcd, 0xeeee1984, 0x3a4f7ee8), Quad(0x2bd2a038, 0xb4a1044c, 0x188a465a, 0x07830c19), Quad(0x5d4a1918, 0x726fefc2, 0x4be9dac9, 0xea48323e)));
  }

  lemma Source2(s: State)
    requires After(s, 2, Grid(Quad(0x45045aec, 0x4ee9a878, 0x0ae33fab, 0x527b4a24), Quad(0xeff25927, 0x35815bcd, 0xeeee1984, 0x3a4f7ee8), Quad(0x2bd2a038, 0xb4a1044c, 0x188a465a, 0x07830c19), Quad(0x5d4a1918, 0x726fefc2, 0x4be9dac9, 0xea48323e)))
    ensures After(s, 4, Grid(Quad(0xf52f7d5a, 0xdbd7988c, 0x72abc9a9, 0xed858451), Quad(0x578fb027, 0xdf33e60f, 0x2f88546b, 0x3031db8c), Quad(0xa85605e0, 0x4857d5ee, 0x1b24e6b9, 0x2ec7d312), Quad(0x8de40b01, 0xb4a20da0, 0xf4e87685, 0x44bc45a6)))
  {
    hide After;
    Pass(s, 2, Grid(Quad(0x45045aec, 0x4ee9a878, 0x0ae33fab, 0x527b4a24), Quad(0xeff25927, 0x35815bcd, 0xeeee1984, 0x3a4f7ee8), Quad(0x2bd2a038, 0xb4a1044c, 0x188a465a, 0x07830c19), Quad(0x5d4a1918, 0x726fefc2, 0x4be9dac9, 0xea48323e)),
         Grid(Quad(0xfab9b633, 0xe128ded0, 0x4f17424d, 0x7d182145), Quad(0x0cf26ca7, 0x752c2f43, 0x4e768f23, 0x4b024a3c), Quad(0xd2e773e0, 0x167952fa, 0x30e27c1e, 0x3a097079), Quad(0xdbea6ca9, 0x5c23b723, 0xa3036d5a, 0x9ea70fbd)));
    Pass(s, 3, Grid(Quad(0xfab9b633, 0xe128ded0, 0x4f17424d, 0x7d182145), Quad(0x0cf26ca7, 0x752c2f43, 0x4e768f23, 0x4b024a3c), Quad(0xd2e773e0, 0x167952fa, 0x30e27c1e, 0x3a097079), Quad(0xdbea6ca9, 0x5c23b723, 0xa3036d5a, 0x9ea70fbd)),
         Grid(Quad(0xf52f7d5a, 0xdbd7988c, 0x72abc9a9, 0xed858451), Quad(0x578fb027, 0xdf33e60f, 0x2f88546b, 0x3031db8c), Quad(0xa85605e0, 0x4857d5ee, 0x1b24e6b9, 0x2ec7d312), Quad(0x8de40b01, 0xb4a20da0, 0xf4e87685, 0x44bc45a6)));
  }

  lemma Source4(s: State)
    requires After(s, 4, Grid(Quad(0xf52f7d5a, 0xdbd7988c, 0x72abc9a9, 0xed858451), Quad(0x578fb027, 0xdf33e60f, 0x2f88546b, 0x3031db8c), Quad(0xa85605e0, 0x4857d5ee, 0x1b24e6b9, 0x2ec7d312), Quad(0x8de40b01, 0xb4a20da0, 0xf4e87685, 0x44bc45a6)))
    ensures After(s, 6, Grid(Quad(0x02d92d3e, 0xe6942d8f, 0x48caff08, 0xfaa2be75), Quad(0x7ba070e1, 0x89996f9e, 0x79e3d27d, 0xec5ee7cf), Quad(0x3a5181f2, 0xca5e3d92, 0xefd7a2d2, 0xb845be92), Quad(0xad36e2f7, 0x75b64d42, 0x065d76d0, 0x3ccb1477)))
  {
    hide After;
    Pass(s, 4, Grid(Quad(0xf52f7d5a, 0xdbd7988c, 0x72abc9a9, 0xed858451), Quad(0x578fb027, 0xdf33e60f, 0x2f88546b, 0x3031db8c), Quad(0xa85605e0, 0x4857d5ee, 0x1b24e6b9, 0x2ec7d312), Quad(0x8de40b01, 0xb4a20da0, 0xf4e87685, 0x44bc45a6)),
         Grid(Quad(0xa096c935, 0x6d426924, 0xd05d1d01, 0x7f6e229e), Quad(0xe0a62b40, 0x2ebf2649, 0x65563551, 0x14113af6), Quad(0x872d696f, 0xcf5cf699, 0x05c8793b, 0x011d3707), Quad(0xc32eeef9, 0x624b247e, 0xef47b403, 0x6c5f24ae)));
    Pass(s, 5, Grid(Quad(0xa096c935, 0x6d426924, 0xd05d1d01, 0x7f6e229e), Quad(0xe0a62b40, 0x2ebf2649, 0x65563551, 0x14113af6), Quad(0x872d696f, 0xcf5cf699, 0x05c8793b, 0x011d3707), Quad(0xc32eeef9, 0x624b247e, 0xef47b403, 0x6c5f24ae)),
         Grid(Quad(0x02d92d3e, 0xe6942d8f, 0x48caff08, 0xfaa2be75), Quad(0x7ba070e1, 0x89996f9e, 0x79e3d27d, 0xec5ee7cf), Quad(0x3a5181f2, 0xca5e3d92, 0xefd7a2d2, 0xb845be92), Quad(0xad36e2f7, 0x75b64d42, 0x065d76d0, 0x3ccb1477)));
  }

  lemma Source6(s: State)
    requires After(s, 6, Grid(Quad(0x02d92d3e, 0xe6942d8f, 0x48caff08, 0xfaa2be75), Quad(0x7ba070e1, 0x89996f9e, 0x79e3d27d, 0xec5ee7cf), Quad(0x3a5181f2, 0xca5e3d92, 0xefd7a2d2, 0xb845be92), Quad(0xad36e2f7, 0x75b64d42, 0x065d76d0, 0x3ccb1477)))
    ensures After(s, 8, Grid(Quad(0xbb3891c3, 0xb556a9f9, 0x02205039, 0x3ca6fea3), Quad(0x88486ae2, 0x46cd8800, 0x0a140f0e, 0x3effb8e3), Quad(0x6b01f5ee, 0x45b12723, 0x2f5df5e9, 0x54b10ac4), Quad(0x89c1ada7, 0x5579b975, 0xa4551bf8, 0xe0e255bd)))
  {
    hide After;
    Pass(s, 6, Grid(Quad(0x02d92d3e, 0xe6942d8f, 0x48caff08, 0xfaa2be75), Quad(0x7ba070e1, 0x89996f9e, 0x79e3d27d, 0xec5ee7cf), Quad(0x3a5181f2, 0xca5e3d92, 0xefd7a2d2, 0xb845be92), Quad(0xad36e2f7, 0x75b64d42, 0x065d76d0, 0x3ccb1477)),
         Grid(Quad(0xdaa1c2d2, 0x931c0ea7, 0x2054022e, 0xddc7606e), Quad(0xe83c6571, 0x8ddf25e2, 0xab8a2b61, 0x97bbbf72), Quad(0xf2b7c593, 0x75c6c01d, 0x655f08d6, 0xb49fd0e5), Quad(0xa6589a63, 0x93577041, 0x55bca399, 0xb03ee7da)));
    Pass(s, 7, Grid(Quad(0xdaa1c2d2, 0x931c0ea7, 0x2054022e, 0xddc7606e), Quad(0xe83c6571, 0x8ddf25e2, 0xab8a2b61, 0x97bbbf72), Quad(0xf2b7c593, 0x75c6c01d, 0x655f08d6, 0xb49fd0e5), Quad(0xa6589a63, 0x93577041, 0x55bca399, 0xb03ee7da)),
         Grid(Quad(0xbb3891c3, 0xb556a9f9, 0x02205039, 0x3ca6fea3), Quad(0x88486ae2, 0x46cd8800, 0x0a140f0e, 0x3effb8e3), Quad(0x6b01f5ee, 0x45b12723, 0x2f5df5e9, 0x54b10ac4), Quad(0x89c1ada7, 0x5579b975, 0xa4551bf8, 0xe0e255bd)));
  }

  lemma Source8(s: State)
    requires After(s, 8, Grid(Quad(0xbb3891c3, 0xb556a9f9, 0x02205039, 0x3ca6fea3), Quad(0x88486ae2, 0x46cd8800, 0x0a140f0e, 0x3effb8e3), Quad(0x6b01f5ee, 0x45b12723, 0x2f5df5e9, 0x54b10ac4), Quad(0x89c1ada7, 0x5579b975, 0xa4551bf8, 0xe0e255bd)))
    ensures After(s, 10, Grid(Quad(0x26cf3ef7, 0xd2beddb1, 0x2d096433, 0xfc21259a), Quad(0xe13ec79e, 0x1f05c3a3, 0x1c27ea8e, 0x58054349), Quad(0x96333f25, 0x90dc1b25, 0x1691f53d, 0xe9d688c3), Quad(0x514977e2, 0xc33a50f7, 0x59464fb1, 0xb1a29b57)))
  {
    hide After;
    Pass(s, 8, Grid(Quad(0xbb3891c3, 0xb556a9f9, 0x02205039, 0x3ca6fea3), Quad(0x88486ae2, 0x46cd8800, 0x0a140f0e, 0x3effb8e3), Quad(0x6b01f5ee, 0x45b12723, 0x2f5df5e9, 0x54b10ac4), Quad(0x89c1ada7, 0x5579b975, 0xa4551bf8, 0xe0e255bd)),
         Grid(Quad(0x9f61d66c, 0x76582b01, 0x392eba20, 0x95359291), Quad(0x033d6a5c, 0xf997048c, 0x6482cd0b, 0xfd8a3f83), Quad(0xff5b984a, 0xd4e678cc, 0x88b7c163, 0x5e48eb1a), Quad(0x17c3b3c7, 0xa2227fb8, 0xc364dc1f, 0x8c1ce0f5)));
    Pass(s, 9, Grid(Quad(0x9f61d66c, 0x76582b01, 0x392eba20, 0x95359291), Quad(0x033d6a5c, 0xf997048c, 0x6482cd0b, 0xfd8a3f83), Quad(0xff5b984a, 0xd4e678cc, 0x88b7c163, 0x5e48eb1a), Quad(0x17c3b3c7, 0xa2227fb8, 0xc364dc1f, 0x8c1ce0f5)),
         Grid(Quad(0x26cf3ef7, 0xd2beddb1, 0x2d096433, 0xfc21259a), Quad(0xe13ec79e, 0x1f05c3a3, 0x1c27ea8e, 0x58054349), Quad(0x96333f25, 0x90dc1b25, 0x1691f53d, 0xe9d688c3), Quad(0x514977e2, 0xc33a50f7, 0x59464fb1, 0xb1a29b57)));
  }

  lemma SourceSum(s: State, r: State)
    requires GridOf(s) == Grid(Quad(0x61707865, 0x04030201, 0x14131211, 0x00000001), Quad(0x33303232, 0x08070605, 0x18171615, 0x00000001), Quad(0x7962326d, 0x0c0b0a09, 0x1c1b1a19, 0x00000000), Quad(0x6b206574, 0x100f0e0d, 0x201f1e1d, 0x00000000))
    requires GridOf(r) == Grid(Quad(0x26cf3ef7, 0xd2beddb1, 0x2d096433, 0xfc21259a), Quad(0xe13ec79e, 0x1f05c3a3, 0x1c27ea8e, 0x58054349), Quad(0x96333f25, 0x90dc1b25, 0x1691f53d, 0xe9d688c3), Quad(0x514977e2, 0xc33a50f7, 0x59464fb1, 0xb1a29b57))
    ensures AddWords(r, s) == [0x883fb75c, 0x146ef9d0, 0x0f957192, 0xbc69dd56,
                              0xd6c1dfb2, 0x270cc9a8, 0x9ce7252e, 0xd3495f04,
                              0x411c7644, 0x343f00a3, 0x32ad0f56, 0x79656dce,
                              0xfc21259b, 0x5805434a, 0xe9d688c3, 0xb1a29b57]
  {
  }

  lemma WordIs(s: seq<byte>, i: nat, b0: byte, b1: byte, b2: byte, b3: byte, w: word)
    requires 4 * i + 4 <= |s| && s[4 * i] == b0 && s[4 * i + 1] == b1 && s[4 * i + 2] == b2 && s[4 * i + 3] == b3
    requires Join(b0, b1, b2, b3) == w
    ensures WordAt(s, i) == w
  {
    hide Join;
  }

  lemma KeyWords0(key: seq<byte>)
    requires key == Key()
    ensures WordAt(key, 0) == 0x04030201 && WordAt(key, 1) == 0x08070605
  {
    hide WordAt;
    WordIs(key, 0, 0x01, 0x02, 0x03, 0x04, 0x04030201);
    WordIs(key, 1, 0x05, 0x06, 0x07, 0x08, 0x08070605);
  }

  lemma KeyWords2(key: seq<byte>)
    requires key == Key()
    ensures WordAt(key, 2) == 0x0c0b0a09 && WordAt(key, 3) == 0x100f0e0d
  {
    hide WordAt;
    WordIs(key, 2, 0x09, 0x0a, 0x0b, 0x0c, 0x0c0b0a09);
    WordIs(key, 3, 0x0d, 0x0e, 0x0f, 0x10, 0x100f0e0d);
  }

  lemma KeyWords4(key: seq<byte>)
    requires key == Key()
    ensures WordAt(key, 4) == 0x14131211 && WordAt(key, 5) == 0x18171615
  {
    hide WordAt;
    WordIs(key, 4, 0x11, 0x12, 0x13, 0x14, 0x14131211);
    WordIs(key, 5, 0x15, 0x16, 0x17, 0x18, 0x18171615);
  }

  lemma KeyWords6(key: seq<byte>)
    requires key == Key()
    ensures WordAt(key, 6) == 0x1c1b1a19 && WordAt(key, 7) == 0x201f1e1d
  {
    hide WordAt;
    WordIs(key, 6, 0x19, 0x1a, 0x1b, 0x1c, 0x1c1b1a19);
    WordIs(key, 7, 0x1d, 0x1e, 0x1f, 0x20, 0x201f1e1d);
  }

  lemma NonceWords()
    ensures var w := Words(NonceOne(), 3); w[0] == 1 && w[1] == 0 && w[2] == 0
  {
  }

  lemma SourceStart()
    ensures GridOf(InitialState(Words(Key(), 8), 1, Words(NonceOne(), 3)))
            == Grid(Quad(0x61707865, 0x04030201, 0x14131211, 0x00000001), Quad(0x33303232, 0x08070605, 0x18171615, 0x00000001), Quad(0x7962326d, 0x0c0b0a09, 0x1c1b1a19, 0x00000000), Quad(0x6b206574, 0x100f0e0d, 0x201f1e1d, 0x00000000))
  {
    hide WordAt, Key;
    KeyWords0(Key());
    KeyWords2(Key());
    KeyWords4(Key());
    KeyWords6(Key());
    NonceWords();
  }

  /** The first block under that key and nonce, word for word. */
  function SourceWords(): State {
    [0x883fb75c, 0x146ef9d0, 0x0f957192, 0xbc69dd56,
     0xd6c1dfb2, 0x270cc9a8, 0x9ce7252e, 0xd3495f04,
     0x411c7644, 0x343f00a3, 0x32ad0f56, 0x79656dce,
     0xfc21259b, 0x5805434a, 0xe9d688c3, 0xb1a29b57]
  }

  lemma SourceBlock()
    ensures Block(Words(Key(), 8), 1, Words(NonceOne(), 3)) == SourceWords()
  {
    var s := InitialState(Words(Key(), 8), 1, Words(NonceOne(), 3));
    SourceStart();
    assert After(s, 0, Grid(Quad(0x61707865, 0x04030201, 0x14131211, 0x00000001), Quad(0x33303232, 0x08070605, 0x18171615, 0x00000001), Quad(0x7962326d, 0x0c0b0a09, 0x1c1b1a19, 0x00000000), Quad(0x6b206574, 0x100f0e0d, 0x201f1e1d, 0x00000000)));
    hide Rounds, After, InitialState, Words;
    Source0(s);
    Source2(s);
    Source4(s);
    Source6(s);
    Source8(s);
    SourceSum(s, Rounds(s, 10));
  }

  /** The keystream spells those words, least significant byte first. */
  lemma SourceKeystream(i: nat)
    requires i < 64
    ensures Keystream(Key(), NonceOne(), 1, i) == BlockByte(SourceWords(), i)
  {
    hide Block, Words, Key, NonceOne;
    SourceBlock();
  }

  /** It starts 5c b7 3f 88, and byte 63 is b1. */
  lemma SourceBytes()
    ensures BlockByte(SourceWords(), 0) == 0x5c && BlockByte(SourceWords(), 1) == 0xb7
    ensures BlockByte(SourceWords(), 2) == 0x3f && BlockByte(SourceWords(), 3) == 0x88
    ensures BlockByte(SourceWords(), 63) == 0xb1
  {
  }
}
