/** The digest of the three bytes "abc", worked out on the machine: it is the one that the standard gives. */
module ShaAbc {
  import opened BookTypes
  import opened Wire
  import opened Sha256s
  import opened ShaMachine

  const ABC: Bytes := [0x61, 0x62, 0x63]

  // ----- what the machine computes -----

  /** The words of the schedule, eight to a row. */
  const SCHEDULE: seq<seq<Machine>> := [
    [0x61626380, 0x00000000, 0x00000000, 0x00000000, 0x00000000, 0x00000000, 0x00000000, 0x00000000],
    [0x00000000, 0x00000000, 0x00000000, 0x00000000, 0x00000000, 0x00000000, 0x00000000, 0x00000018],
    [0x61626380, 0x000f0000, 0x7da86405, 0x600003c6, 0x3e9d7b78, 0x0183fc00, 0x12dcbfdb, 0xe2e2c38e],
    [0xc8215c1a, 0xb73679a2, 0xe5bc3909, 0x32663c5b, 0x9d209d67, 0xec8726cb, 0x702138a4, 0xd3b7973b],
    [0x93f5997f, 0x3b68ba73, 0xaff4ffc1, 0xf10a5c62, 0x0a8b3996, 0x72af830a, 0x9409e33e, 0x24641522],
    [0x9f47bf94, 0xf0a64f5a, 0x3e246a79, 0x27333ba3, 0x0c4763f2, 0x840abf27, 0x7a290d5d, 0x065c43da],
    [0xfb3e89cb, 0xcc7617db, 0xb9e66c34, 0xa9993667, 0x84badedd, 0xc21462bc, 0x1487472c, 0xb20f7a99],
    [0xef57b9cd, 0xebe6b238, 0x9fe3095e, 0x78bc8d4b, 0xa43fcf15, 0x668b2ff8, 0xeeaba2cc, 0x12b1edeb]]

  /** The constants of the rounds. */
  const CONSTANTS: seq<seq<Machine>> := [
    [0x428a2f98, 0x71374491, 0xb5c0fbcf, 0xe9b5dba5, 0x3956c25b, 0x59f111f1, 0x923f82a4, 0xab1c5ed5],
    [0xd807aa98, 0x12835b01, 0x243185be, 0x550c7dc3, 0x72be5d74, 0x80deb1fe, 0x9bdc06a7, 0xc19bf174],
    [0xe49b69c1, 0xefbe4786, 0x0fc19dc6, 0x240ca1cc, 0x2de92c6f, 0x4a7484aa, 0x5cb0a9dc, 0x76f988da],
    [0x983e5152, 0xa831c66d, 0xb00327c8, 0xbf597fc7, 0xc6e00bf3, 0xd5a79147, 0x06ca6351, 0x14292967],
    [0x27b70a85, 0x2e1b2138, 0x4d2c6dfc, 0x53380d13, 0x650a7354, 0x766a0abb, 0x81c2c92e, 0x92722c85],
    [0xa2bfe8a1, 0xa81a664b, 0xc24b8b70, 0xc76c51a3, 0xd192e819, 0xd6990624, 0xf40e3585, 0x106aa070],
    [0x19a4c116, 0x1e376c08, 0x2748774c, 0x34b0bcb5, 0x391c0cb3, 0x4ed8aa4a, 0x5b9cca4f, 0x682e6ff3],
    [0x748f82ee, 0x78a5636f, 0x84c87814, 0x8cc70208, 0x90befffa, 0xa4506ceb, 0xbef9a3f7, 0xc67178f2]]

  /** The first of the eight variables at the start, with the three it has shifted on, and after each round; every row
      begins with the last four words of the one before. */
  const AS: seq<seq<Machine>> := [
    [0xa54ff53a, 0x3c6ef372, 0xbb67ae85, 0x6a09e667, 0x5d6aebcd, 0x5a6ad9ad, 0xc8c347a7, 0xd550f666,
     0x04409a6a, 0x2b4209f5, 0xe5030380, 0x85a07b5f],
    [0x04409a6a, 0x2b4209f5, 0xe5030380, 0x85a07b5f, 0x8e04ecb9, 0x8c87346b, 0x4798a3f4, 0xf71fc5a9,
     0x87912990, 0xd932eb16, 0xc0645fde, 0xb0fa238e],
    [0x87912990, 0xd932eb16, 0xc0645fde, 0xb0fa238e, 0x21da9a9b, 0xc2fbd9d1, 0xfe777bbf, 0xe1f20c33,
     0x9dc68b63, 0xc2606d6d, 0xa7a3623f, 0xc5d53d8d],
    [0x9dc68b63, 0xc2606d6d, 0xa7a3623f, 0xc5d53d8d, 0x1c2c2838, 0xcde8037d, 0xb62ec4bc, 0x77d37528,
     0x363482c9, 0xa0060b30, 0xea992a22, 0x73b33bf5],
    [0x363482c9, 0xa0060b30, 0xea992a22, 0x73b33bf5, 0x98e12507, 0xfe604df5, 0xa9a7738c, 0x65a0cfe4,
     0x41a65cb1, 0x34df1604, 0x6dc57a8a, 0x79ea687a],
    [0x41a65cb1, 0x34df1604, 0x6dc57a8a, 0x79ea687a, 0xd6670766, 0xdf46652f, 0x17aa0dfe, 0x9d4baf93,
     0x26628815, 0x72ab4b91, 0xa14c14b0, 0x4172328d],
    [0x26628815, 0x72ab4b91, 0xa14c14b0, 0x4172328d, 0x05757ceb, 0xf11bfaa8, 0x7a0508a1, 0x886e7a22,
     0x101fd28f, 0xf5702fdb, 0x3ec45cdb, 0x38cc9913],
    [0x101fd28f, 0xf5702fdb, 0x3ec45cdb, 0x38cc9913, 0xfcd1887b, 0xc062d46f, 0xffb70472, 0xb6ae8fff,
     0xb85e2ce9, 0x04d24d6c, 0xd39a2165, 0x506e3058]]

  /** The same for the fifth variable. */
  const ES: seq<seq<Machine>> := [
    [0x5be0cd19, 0x1f83d9ab, 0x9b05688c, 0x510e527f, 0xfa2a4622, 0x78ce7989, 0xf92939eb, 0x24e00850,
     0x43ada245, 0x714260ad, 0x9b27a401, 0x0c657a79],
    [0x43ada245, 0x714260ad, 0x9b27a401, 0x0c657a79, 0x32ca2d8c, 0x1cc92596, 0x436b23e8, 0x816fd6e9,
     0x1e578218, 0x745a48de, 0x0b92f20c, 0x07590dcd],
    [0x1e578218, 0x745a48de, 0x0b92f20c, 0x07590dcd, 0x8034229c, 0x846ee454, 0xcc899961, 0xb0638179,
     0x8ada8930, 0xe1257970, 0x49f5114a, 0xaa47c347],
    [0x8ada8930, 0xe1257970, 0x49f5114a, 0xaa47c347, 0x2823ef91, 0x14383d8e, 0xc74c6516, 0xedffbff8,
     0x6112a3b7, 0xade79437, 0x0109ab3a, 0xba591112],
    [0x6112a3b7, 0xade79437, 0x0109ab3a, 0xba591112, 0x9cd9f5f6, 0x59249dd3, 0x085f3833, 0xf4b002d6,
     0x0772a26b, 0xa507a53d, 0xf0781bc8, 0x1efbc0a0],
    [0x0772a26b, 0xa507a53d, 0xf0781bc8, 0x1efbc0a0, 0x26352d63, 0x838b2711, 0xdecd4715, 0xfda24c2e,
     0xa80f11f0, 0xb7755da1, 0xd57b94a9, 0xfecf0bc6],
    [0xa80f11f0, 0xb7755da1, 0xd57b94a9, 0xfecf0bc6, 0xbd714038, 0x6e5c390c, 0x52f1ccf7, 0x49231c1e,
     0x529e7d00, 0x9f4787c3, 0xe50e1b4f, 0x54cb266b],
    [0x529e7d00, 0x9f4787c3, 0xe50e1b4f, 0x54cb266b, 0x9b5e906c, 0x7e44008e, 0x6d83bfc6, 0xb21bad3d,
     0x961f4894, 0x948d25b6, 0xfb121210, 0x5ef50f24]]

  function Row(j: nat): (row: seq<Machine>)
    requires j < 8
    ensures |row| == 8
  {
    SCHEDULE[j]
  }

  function ConstantRow(j: nat): (row: seq<Machine>)
    requires j < 8
    ensures |row| == 8
  {
    CONSTANTS[j]
  }

  /** Round 8 * j + i, counted from zero. */
  predicate Turn(j: nat, i: nat)
    requires j < 8 && i < 8
  {
    var a, e := AS[j], ES[j];
    var t1 := First(e[i + 3], e[i + 2], e[i + 1], e[i], CONSTANTS[j][i], SCHEDULE[j][i]);
    a[i + 4] == MAdd(t1, Second(a[i + 3], a[i + 2], a[i + 1])) && e[i + 4] == MAdd(a[i], t1)
  }

  /** Word 8 * j + i of the schedule. */
  predicate Expands(j: nat, i: nat)
    requires 2 <= j < 8 && i < 8
  {
    var w := SCHEDULE[j - 2] + SCHEDULE[j - 1] + SCHEDULE[j];
    w[i + 16] == MExpand(w[i + 14], w[i + 9], w[i + 1], w[i])
  }

  lemma TurnsOf0()
    ensures Turn(0, 0) && Turn(0, 1) && Turn(0, 2) && Turn(0, 3)
    ensures Turn(0, 4) && Turn(0, 5) && Turn(0, 6) && Turn(0, 7)
  {
  }

  lemma TurnsOf1()
    ensures Turn(1, 0) && Turn(1, 1) && Turn(1, 2) && Turn(1, 3)
    ensures Turn(1, 4) && Turn(1, 5) && Turn(1, 6) && Turn(1, 7)
  {
  }

  lemma TurnsOf2()
    ensures Turn(2, 0) && Turn(2, 1) && Turn(2, 2) && Turn(2, 3)
    ensures Turn(2, 4) && Turn(2, 5) && Turn(2, 6) && Turn(2, 7)
  {
  }

  lemma TurnsOf3()
    ensures Turn(3, 0) && Turn(3, 1) && Turn(3, 2) && Turn(3, 3)
    ensures Turn(3, 4) && Turn(3, 5) && Turn(3, 6) && Turn(3, 7)
  {
  }

  lemma TurnsOf4()
    ensures Turn(4, 0) && Turn(4, 1) && Turn(4, 2) && Turn(4, 3)
    ensures Turn(4, 4) && Turn(4, 5) && Turn(4, 6) && Turn(4, 7)
  {
  }

  lemma TurnsOf5()
    ensures Turn(5, 0) && Turn(5, 1) && Turn(5, 2) && Turn(5, 3)
    ensures Turn(5, 4) && Turn(5, 5) && Turn(5, 6) && Turn(5, 7)
  {
  }

  lemma TurnsOf6()
    ensures Turn(6, 0) && Turn(6, 1) && Turn(6, 2) && Turn(6, 3)
    ensures Turn(6, 4) && Turn(6, 5) && Turn(6, 6) && Turn(6, 7)
  {
  }

  lemma TurnsOf7()
    ensures Turn(7, 0) && Turn(7, 1) && Turn(7, 2) && Turn(7, 3)
    ensures Turn(7, 4) && Turn(7, 5) && Turn(7, 6) && Turn(7, 7)
  {
  }

  lemma ExpandsOf2()
    ensures Expands(2, 0) && Expands(2, 1) && Expands(2, 2) && Expands(2, 3)
    ensures Expands(2, 4) && Expands(2, 5) && Expands(2, 6) && Expands(2, 7)
  {
  }

  lemma ExpandsOf3()
    ensures Expands(3, 0) && Expands(3, 1) && Expands(3, 2) && Expands(3, 3)
    ensures Expands(3, 4) && Expands(3, 5) && Expands(3, 6) && Expands(3, 7)
  {
  }

  lemma ExpandsOf4()
    ensures Expands(4, 0) && Expands(4, 1) && Expands(4, 2) && Expands(4, 3)
    ensures Expands(4, 4) && Expands(4, 5) && Expands(4, 6) && Expands(4, 7)
  {
  }

  lemma ExpandsOf5()
    ensures Expands(5, 0) && Expands(5, 1) && Expands(5, 2) && Expands(5, 3)
    ensures Expands(5, 4) && Expands(5, 5) && Expands(5, 6) && Expands(5, 7)
  {
  }

  lemma ExpandsOf6()
    ensures Expands(6, 0) && Expands(6, 1) && Expands(6, 2) && Expands(6, 3)
    ensures Expands(6, 4) && Expands(6, 5) && Expands(6, 6) && Expands(6, 7)
  {
  }

  lemma ExpandsOf7()
    ensures Expands(7, 0) && Expands(7, 1) && Expands(7, 2) && Expands(7, 3)
    ensures Expands(7, 4) && Expands(7, 5) && Expands(7, 6) && Expands(7, 7)
  {
  }

  lemma Turns(j: nat, i: nat)
    requires j < 8 && i < 8
    ensures Turn(j, i)
  {
    hide Turn;
    assert i == 0 || i == 1 || i == 2 || i == 3 || i == 4 || i == 5 || i == 6 || i == 7;
    match j
    case 0 => TurnsOf0();
    case 1 => TurnsOf1();
    case 2 => TurnsOf2();
    case 3 => TurnsOf3();
    case 4 => TurnsOf4();
    case 5 => TurnsOf5();
    case 6 => TurnsOf6();
    case 7 => TurnsOf7();
  }

  lemma AllExpand(j: nat, i: nat)
    requires 2 <= j < 8 && i < 8
    ensures Expands(j, i)
  {
    hide Expands;
    assert i == 0 || i == 1 || i == 2 || i == 3 || i == 4 || i == 5 || i == 6 || i == 7;
    match j
    case 2 => ExpandsOf2();
    case 3 => ExpandsOf3();
    case 4 => ExpandsOf4();
    case 5 => ExpandsOf5();
    case 6 => ExpandsOf6();
    case 7 => ExpandsOf7();
  }

  // ----- numbers and the machine's words -----

  function Digit(b: Machine): nat {
    (if b & 1 == 1 then 1 else 0) + (if b & 2 == 2 then 2 else 0) + (if b & 4 == 4 then 4 else 0)
    + (if b & 8 == 8 then 8 else 0)
  }

  /** A word as a number, from its eight hexadecimal digits. */
  function Number(b: Machine): nat {
    Digit(b) + 0x10 * Digit(b >> 4) + 0x100 * Digit(b >> 8) + 0x1000 * Digit(b >> 12) + 0x1_0000 * Digit(b >> 16)
    + 0x10_0000 * Digit(b >> 20) + 0x100_0000 * Digit(b >> 24) + 0x1000_0000 * Digit(b >> 28)
  }

  lemma OneBit(p: nat, b: Machine, n: nat)
    requires Alike(p, Half(b), n)
    ensures Alike(Lowest(b) + 2 * p, b, n + 1)
  {
    hide Half, Alike;
    AlikeMore(Lowest(b) + 2 * p, b, n + 1, p, Half(b), Lowest(b));
  }

  function Fourth(b: Machine): Machine { b >> 4 }

  lemma OneDigit(p: nat, b: Machine, n: nat)
    requires Alike(p, Fourth(b), n)
    ensures Alike(Digit(b) + 16 * p, b, n + 4)
  {
    hide Half, Lowest, Digit, Alike, Fourth;
    DigitIs(b);
    var x, y, z := Half(b), Half(Half(b)), Half(Half(Half(b)));
    OneBit(p, z, n);
    OneBit(Lowest(z) + 2 * p, y, n + 1);
    OneBit(Lowest(y) + 2 * (Lowest(z) + 2 * p), x, n + 2);
    OneBit(Lowest(x) + 2 * (Lowest(y) + 2 * (Lowest(z) + 2 * p)), b, n + 3);
  }

  lemma DigitIs(b: Machine)
    ensures Half(Half(Half(Half(b)))) == Fourth(b)
    ensures Digit(b) == Lowest(b) + 2 * Lowest(Half(b)) + 4 * Lowest(Half(Half(b))) + 8 * Lowest(Half(Half(Half(b))))
  {
  }

  /** Eight words, each the one before without its last digit. */
  lemma EightDigits(b: Machine, c: Machine, d: Machine, e: Machine, f: Machine, g: Machine, h: Machine, i: Machine)
    requires Fourth(b) == c && Fourth(c) == d && Fourth(d) == e && Fourth(e) == f && Fourth(f) == g && Fourth(g) == h
    requires Fourth(h) == i && Fourth(i) == 0
    ensures Alike(Digit(b) + 0x10 * Digit(c) + 0x100 * Digit(d) + 0x1000 * Digit(e) + 0x1_0000 * Digit(f)
                  + 0x10_0000 * Digit(g) + 0x100_0000 * Digit(h) + 0x1000_0000 * Digit(i), b, 32)
  {
    hide Fourth, Digit, Alike;
    AlikeNone(0, 0);
    OneDigit(0, i, 0);
    var p := Digit(i);
    OneDigit(p, h, 4);
    p := Digit(h) + 16 * p;
    OneDigit(p, g, 8);
    p := Digit(g) + 16 * p;
    OneDigit(p, f, 12);
    p := Digit(f) + 16 * p;
    OneDigit(p, e, 16);
    p := Digit(e) + 16 * p;
    OneDigit(p, d, 20);
    p := Digit(d) + 16 * p;
    OneDigit(p, c, 24);
    p := Digit(c) + 16 * p;
    OneDigit(p, b, 28);
  }

  lemma Shifts(b: Machine)
    ensures Fourth(b) == b >> 4 && Fourth(b >> 4) == b >> 8 && Fourth(b >> 8) == b >> 12 && Fourth(b >> 12) == b >> 16
    ensures Fourth(b >> 16) == b >> 20 && Fourth(b >> 20) == b >> 24 && Fourth(b >> 24) == b >> 28
    ensures Fourth(b >> 28) == 0
  {
  }

  lemma DigitFits(b: Machine)
    ensures Digit(b) < 16
  {
  }

  lemma NumberFits(b: Machine)
    ensures Number(b) < 0x1_0000_0000
  {
    hide Digit;
    DigitFits(b);
    DigitFits(b >> 4);
    DigitFits(b >> 8);
    DigitFits(b >> 12);
    DigitFits(b >> 16);
    DigitFits(b >> 20);
    DigitFits(b >> 24);
    DigitFits(b >> 28);
  }

  lemma NumberIs(b: Machine)
    ensures Number(b) < 0x1_0000_0000 && Is(Number(b), b)
  {
    hide Digit, Alike, Fourth;
    NumberFits(b);
    Shifts(b);
    EightDigits(b, b >> 4, b >> 8, b >> 12, b >> 16, b >> 20, b >> 24, b >> 28);
  }

  /** The two tables agree on constant 8 * j + i. */
  predicate Same(j: nat, i: nat)
    requires j < 8 && i < 8
  {
    K[8 * j + i] == Number(CONSTANTS[j][i])
  }

  lemma ConstantsOf0(i: nat)
    requires i < 8
    ensures Same(0, i)
  {
  }

  lemma ConstantsOf1(i: nat)
    requires i < 8
    ensures Same(1, i)
  {
  }

  lemma ConstantsOf2(i: nat)
    requires i < 8
    ensures Same(2, i)
  {
  }

  lemma ConstantsOf3(i: nat)
    requires i < 8
    ensures Same(3, i)
  {
  }

  lemma ConstantsOf4(i: nat)
    requires i < 8
    ensures Same(4, i)
  {
  }

  lemma ConstantsOf5(i: nat)
    requires i < 8
    ensures Same(5, i)
  {
  }

  lemma ConstantsOf6(i: nat)
    requires i < 8
    ensures Same(6, i)
  {
  }

  lemma ConstantsOf7(i: nat)
    requires i < 8
    ensures Same(7, i)
  {
  }

  lemma SameConstants(j: nat, i: nat)
    requires j < 8 && i < 8
    ensures Same(j, i)
  {
    hide Same;
    match j
    case 0 => ConstantsOf0(i);
    case 1 => ConstantsOf1(i);
    case 2 => ConstantsOf2(i);
    case 3 => ConstantsOf3(i);
    case 4 => ConstantsOf4(i);
    case 5 => ConstantsOf5(i);
    case 6 => ConstantsOf6(i);
    case 7 => ConstantsOf7(i);
  }

  lemma ConstantIs(j: nat, i: nat)
    requires j < 8 && i < 8
    ensures Is(Constant(8 * j + i), ConstantRow(j)[i])
  {
    hide Is, Number;
    NumberIs(ConstantRow(j)[i]);
    SameConstants(j, i);
  }

  // ----- the message, its schedule, its rounds -----

  /** One block: the three bytes, the marker, zeros, and the length in bits. */
  ghost predicate IsAbcBlock(p: Bytes) {
    && |p| == 64 && p[0] == 0x61 && p[1] == 0x62 && p[2] == 0x63 && p[3] == 0x80 && p[63] == 24
    && forall i :: 4 <= i < 63 ==> p[i] == 0
  }

  lemma {:induction false} SmallNumber(x: u8, n: nat)
    requires n > 0
    ensures ToBigEndian(x, n)[n - 1] == x && forall i :: 0 <= i < n - 1 ==> ToBigEndian(x, n)[i] == 0
  {
    if n > 1 { SmallNumber(0, n - 1); }
  }

  lemma AbcPadded()
    ensures IsAbcBlock(Pad(ABC))
  {
    hide Zeros, ToBigEndian;
    SmallNumber(24, 8);
  }

  lemma FirstWords(p: Bytes, t: nat)
    requires IsAbcBlock(p) && t < 16
    ensures WordAt(p, t) == if t == 0 then 0x61626380 else if t == 15 then 24 else 0
  {
  }

  lemma FirstNumbers(t: nat)
    requires t < 16
    ensures Number(ScheduleOf(t)) == if t == 0 then 0x61626380 else if t == 15 then 24 else 0
  {
  }

  /** Word t of the table. */
  function ScheduleOf(t: nat): Machine
    requires t < 64
  {
    Row(t / 8)[t % 8]
  }

  lemma InThreeRows(u: seq<Machine>, v: seq<Machine>, w: seq<Machine>, i: nat)
    requires |u| == |v| == |w| == 8 && i < 8
    ensures var all := u + v + w;
            && all[i] == u[i] && all[i + 16] == w[i]
            && all[i + 1] == (if i < 7 then u[i + 1] else v[0]) && all[i + 9] == (if i < 7 then v[i + 1] else w[0])
            && all[i + 14] == if i < 2 then v[i + 6] else w[i - 2]
  {
  }

  lemma RowOf(t: nat, back: nat)
    requires 16 <= t && 0 < back <= 16
    ensures var j, i := t / 8, t % 8;
            if back <= i then (t - back) / 8 == j && (t - back) % 8 == i - back
            else if back <= i + 8 then (t - back) / 8 == j - 1 && (t - back) % 8 == i + 8 - back
            else (t - back) / 8 == j - 2 && (t - back) % 8 == i + 16 - back
  {
  }

  lemma ExpandsByRow(j: nat, i: nat)
    requires 2 <= j < 8 && i < 8 && Expands(j, i)
    ensures var w := Row(j - 2) + Row(j - 1) + Row(j); w[i + 16] == MExpand(w[i + 14], w[i + 9], w[i + 1], w[i])
  {
    hide MExpand, SCHEDULE;
  }

  lemma ExpandsAt(t: nat)
    requires 16 <= t < 64
    ensures ScheduleOf(t) == MExpand(ScheduleOf(t - 2), ScheduleOf(t - 7), ScheduleOf(t - 15), ScheduleOf(t - 16))
  {
    hide MExpand, Row, Expands;
    var j, i := t / 8, t % 8;
    AllExpand(j, i);
    ExpandsByRow(j, i);
    InThreeRows(Row(j - 2), Row(j - 1), Row(j), i);
    RowOf(t, 2);
    RowOf(t, 7);
    RowOf(t, 15);
    RowOf(t, 16);
  }

  lemma {:induction false} ScheduleIs(p: Bytes, t: nat)
    requires IsAbcBlock(p) && t < 64
    ensures Is(Schedule(p, t), ScheduleOf(t))
    decreases t
  {
    hide Is, Schedule, Number, ScheduleOf, MExpand, WordAt;
    Sha256.ScheduleAt(p, t);
    if t < 16 {
      FirstWords(p, t);
      FirstNumbers(t);
      NumberIs(ScheduleOf(t));
    } else {
      ScheduleIs(p, t - 2);
      ScheduleIs(p, t - 7);
      ScheduleIs(p, t - 15);
      ScheduleIs(p, t - 16);
      ExpandsAt(t);
      ExpandIs(Schedule(p, t - 2), Schedule(p, t - 7), Schedule(p, t - 15), Schedule(p, t - 16),
        ScheduleOf(t - 2), ScheduleOf(t - 7), ScheduleOf(t - 15), ScheduleOf(t - 16));
    }
  }

  /** The eight variables after i rounds of row j. */
  function Variables(j: nat, i: nat): MWords
    requires j < 8 && i <= 8
  {
    var a, e := AS[j], ES[j];
    MWords(a[i + 3], a[i + 2], a[i + 1], a[i], e[i + 3], e[i + 2], e[i + 1], e[i])
  }

  lemma NextVariables(j: nat, i: nat)
    requires j < 8 && i < 8
    ensures Variables(j, i + 1) == MRound(Variables(j, i), ConstantRow(j)[i], Row(j)[i])
  {
    hide First, Second, MAdd, AS, ES, CONSTANTS, SCHEDULE;
    Turns(j, i);
  }

  /** One row of rounds leads to the next. */
  lemma RowsJoin(j: nat)
    requires j < 7
    ensures Variables(j, 8) == Variables(j + 1, 0)
  {
  }

  lemma BlockLength(p: Bytes)
    requires IsAbcBlock(p)
    ensures |p| == 64
  {
  }

  lemma {:induction false} RoundsInRow(p: Bytes, j: nat, i: nat)
    requires IsAbcBlock(p) && j < 8 && i <= 8 && AllAre(Rounds(p, INITIAL_HASH, 8 * j), Variables(j, 0))
    ensures AllAre(Rounds(p, INITIAL_HASH, 8 * j + i), Variables(j, i))
    decreases i
  {
    hide AllAre, Rounds, Round, MRound, Schedule, Is, Variables, Row, ConstantRow, IsAbcBlock;
    BlockLength(p);
    if i > 0 {
      var t := 8 * j + i - 1;
      RoundsInRow(p, j, i - 1);
      NextVariables(j, i - 1);
      ConstantIs(j, i - 1);
      ScheduleAtRow(p, j, i - 1);
      RoundIs(Rounds(p, INITIAL_HASH, t), Variables(j, i - 1), Constant(t), Schedule(p, t),
        ConstantRow(j)[i - 1], Row(j)[i - 1]);
      Sha256.RoundsNext(p, INITIAL_HASH, t);
    }
  }

  lemma ScheduleAtRow(p: Bytes, j: nat, i: nat)
    requires IsAbcBlock(p) && j < 8 && i < 8
    ensures Is(Schedule(p, 8 * j + i), Row(j)[i])
  {
    hide Is, Schedule, Row;
    ScheduleIs(p, 8 * j + i);
    assert (8 * j + i) / 8 == j && (8 * j + i) % 8 == i;
  }

  const MACHINE_START := MWords(0x6a09e667, 0xbb67ae85, 0x3c6ef372, 0xa54ff53a, 0x510e527f, 0x9b05688c,
    0x1f83d9ab, 0x5be0cd19)

  lemma StartIs()
    ensures AllAre(INITIAL_HASH, MACHINE_START) && MACHINE_START == Variables(0, 0)
  {
    hide Is;
    var m := MACHINE_START;
    NumberIs(m.a);
    NumberIs(m.b);
    NumberIs(m.c);
    NumberIs(m.d);
    NumberIs(m.e);
    NumberIs(m.f);
    NumberIs(m.g);
    NumberIs(m.h);
  }

  lemma {:induction false} RowsOfRounds(p: Bytes, j: nat)
    requires IsAbcBlock(p) && j < 8
    ensures AllAre(Rounds(p, INITIAL_HASH, 8 * j + 8), Variables(j, 8))
  {
    hide AllAre, Rounds, Variables;
    if j == 0 {
      StartIs();
      Sha256.RoundsStart(p, INITIAL_HASH);
    } else {
      RowsOfRounds(p, j - 1);
      RowsJoin(j - 1);
    }
    RoundsInRow(p, j, 8);
  }

  // ----- the digest -----

  const ABC_HASH := Words(0xba7816bf, 0x8f01cfea, 0x414140de, 0x5dae2223, 0xb00361a3, 0x96177a9c, 0xb410ff61,
    0xf20015ad)

  const ABC_DIGEST: Bytes :=
    [0xba, 0x78, 0x16, 0xbf] + [0x8f, 0x01, 0xcf, 0xea] + [0x41, 0x41, 0x40, 0xde] + [0x5d, 0xae, 0x22, 0x23] +
    [0xb0, 0x03, 0x61, 0xa3] + [0x96, 0x17, 0x7a, 0x9c] + [0xb4, 0x10, 0xff, 0x61] + [0xf2, 0x00, 0x15, 0xad]

  /** The words of the hash, and the machine's. */
  const MACHINE_HASH := MWords(0xba7816bf, 0x8f01cfea, 0x414140de, 0x5dae2223, 0xb00361a3, 0x96177a9c, 0xb410ff61,
    0xf20015ad)

  lemma HashIs()
    ensures AllAre(ABC_HASH, MACHINE_HASH)
  {
    hide Is;
    var m := MACHINE_HASH;
    NumberIs(m.a);
    NumberIs(m.b);
    NumberIs(m.c);
    NumberIs(m.d);
    NumberIs(m.e);
    NumberIs(m.f);
    NumberIs(m.g);
    NumberIs(m.h);
  }

  function MSum(v: MWords, w: MWords): MWords {
    MWords(MAdd(v.a, w.a), MAdd(v.b, w.b), MAdd(v.c, w.c), MAdd(v.d, w.d),
           MAdd(v.e, w.e), MAdd(v.f, w.f), MAdd(v.g, w.g), MAdd(v.h, w.h))
  }

  lemma SumOfIs(v: Words, w: Words, m: MWords, n: MWords)
    requires AllAre(v, m) && AllAre(w, n)
    ensures AllAre(SumOf(v, w), MSum(m, n))
  {
    hide Is, Plus, MAdd;
    PlusIs(v.a, w.a, m.a, n.a);
    PlusIs(v.b, w.b, m.b, n.b);
    PlusIs(v.c, w.c, m.c, n.c);
    PlusIs(v.d, w.d, m.d, n.d);
    PlusIs(v.e, w.e, m.e, n.e);
    PlusIs(v.f, w.f, m.f, n.f);
    PlusIs(v.g, w.g, m.g, n.g);
    PlusIs(v.h, w.h, m.h, n.h);
  }

  lemma SameWords(v: Words, w: Words, m: MWords)
    requires AllAre(v, m) && AllAre(w, m)
    ensures v == w
  {
    hide Is;
    SameWord(v.a, w.a, m.a);
    SameWord(v.b, w.b, m.b);
    SameWord(v.c, w.c, m.c);
    SameWord(v.d, w.d, m.d);
    SameWord(v.e, w.e, m.e);
    SameWord(v.f, w.f, m.f);
    SameWord(v.g, w.g, m.g);
    SameWord(v.h, w.h, m.h);
  }

  lemma LastSum()
    ensures MSum(MACHINE_START, Variables(7, 8)) == MACHINE_HASH
  {
  }

  lemma AbcCompressed(p: Bytes)
    requires IsAbcBlock(p)
    ensures Compress(INITIAL_HASH, p) == ABC_HASH
  {
    hide AllAre, Rounds, Variables, MSum, SumOf;
    StartIs();
    RowsOfRounds(p, 7);
    SumOfIs(INITIAL_HASH, Rounds(p, INITIAL_HASH, 64), MACHINE_START, Variables(7, 8));
    LastSum();
    HashIs();
    SameWords(Compress(INITIAL_HASH, p), ABC_HASH, MACHINE_HASH);
  }

  lemma OneBlock(v: Words, p: Bytes)
    requires |p| == 64
    ensures Absorb(v, p) == Compress(v, p)
  {
    hide Compress;
    assert p[..64] == p && p[64..] == [];
  }

  lemma LastByte(x: nat, high: nat, low: u8, n: nat)
    requires n > 0 && (if n == 1 then x == high < 0x100 else x == high * 0x100 + low)
    ensures ToBigEndian(x, n) == if n == 1 then [x] else ToBigEndian(high, n - 1) + [low]
  {
    if n == 1 { assert ToBigEndian(x / 256, 0) == []; }
  }

  lemma FourBytes(w: Word, b3: u8, b2: u8, b1: u8, b0: u8)
    requires w == b3 * 0x100_0000 + b2 * 0x1_0000 + b1 * 0x100 + b0
    ensures WordBytes(w) == [b3, b2, b1, b0]
  {
    hide ToBigEndian;
    LastByte(b3, b3, 0, 1);
    LastByte(b3 * 0x100 + b2, b3, b2, 2);
    LastByte(b3 * 0x1_0000 + b2 * 0x100 + b1, b3 * 0x100 + b2, b1, 3);
    LastByte(w, b3 * 0x1_0000 + b2 * 0x100 + b1, b0, 4);
  }

  lemma AbcBytes()
    ensures Digest(ABC_HASH) == ABC_DIGEST
  {
    hide WordBytes;
    FourBytes(ABC_HASH.a, 0xba, 0x78, 0x16, 0xbf);
    FourBytes(ABC_HASH.b, 0x8f, 0x01, 0xcf, 0xea);
    FourBytes(ABC_HASH.c, 0x41, 0x41, 0x40, 0xde);
    FourBytes(ABC_HASH.d, 0x5d, 0xae, 0x22, 0x23);
    FourBytes(ABC_HASH.e, 0xb0, 0x03, 0x61, 0xa3);
    FourBytes(ABC_HASH.f, 0x96, 0x17, 0x7a, 0x9c);
    FourBytes(ABC_HASH.g, 0xb4, 0x10, 0xff, 0x61);
    FourBytes(ABC_HASH.h, 0xf2, 0x00, 0x15, 0xad);
  }

  /** The digest of "abc" that FIPS 180-4 gives as its first example. */
  lemma AbcDigest()
    ensures Digest(Hash(ABC)) == ABC_DIGEST
  {
    hide Pad, Compress, Absorb, Digest;
    AbcPadded();
    AbcCompressed(Pad(ABC));
    OneBlock(INITIAL_HASH, Pad(ABC));
    AbcBytes();
  }
}
