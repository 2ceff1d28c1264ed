/** The zigzag order of an 8x8 block's coefficients (ITU T.81 figure A.6). */
module Zigzag {
  /** Natural (row-major) index of zigzag position k. */
  function Zig(k: nat): nat {
    if k < 16 then ZigFirst(k) else if k < 32 then ZigSecond(k) else if k < 48 then ZigThird(k) else ZigFourth(k)
  }

  function ZigFirst(k: nat): nat {
    match k
    case 0 => 0  case 1 => 1  case 2 => 8  case 3 => 16
    case 4 => 9  case 5 => 2  case 6 => 3  case 7 => 10
    case 8 => 17  case 9 => 24  case 10 => 32  case 11 => 25
    case 12 => 18  case 13 => 11  case 14 => 4  case _ => 5
  }

  function ZigSecond(k: nat): nat {
    match k
    case 16 => 12  case 17 => 19  case 18 => 26  case 19 => 33
    case 20 => 40  case 21 => 48  case 22 => 41  case 23 => 34
    case 24 => 27  case 25 => 20  case 26 => 13  case 27 => 6
    case 28 => 7  case 29 => 14  case 30 => 21  case _ => 28
  }

  function ZigThird(k: nat): nat {
    match k
    case 32 => 35  case 33 => 42  case 34 => 49  case 35 => 56
    case 36 => 57  case 37 => 50  case 38 => 43  case 39 => 36
    case 40 => 29  case 41 => 22  case 42 => 15  case 43 => 23
    case 44 => 30  case 45 => 37  case 46 => 44  case _ => 51
  }

  function ZigFourth(k: nat): nat {
    match k
    case 48 => 58  case 49 => 59  case 50 => 52  case 51 => 45
    case 52 => 38  case 53 => 31  case 54 => 39  case 55 => 46
    case 56 => 53  case 57 => 60  case 58 => 61  case 59 => 54
    case 60 => 47  case 61 => 55  case 62 => 62  case _ => 63
  }

  /** Zigzag position of natural index i. */
  function Unzig(k: nat): nat {
    if k < 16 then UnzigFirst(k) else if k < 32 then UnzigSecond(k) else if k < 48 then UnzigThird(k) else UnzigFourth(k)
  }

  function UnzigFirst(k: nat): nat {
    match k
    case 0 => 0  case 1 => 1  case 2 => 5  case 3 => 6
    case 4 => 14  case 5 => 15  case 6 => 27  case 7 => 28
    case 8 => 2  case 9 => 4  case 10 => 7  case 11 => 13
    case 12 => 16  case 13 => 26  case 14 => 29  case _ => 42
  }

  function UnzigSecond(k: nat): nat {
    match k
    case 16 => 3  case 17 => 8  case 18 => 12  case 19 => 17
    case 20 => 25  case 21 => 30  case 22 => 41  case 23 => 43
    case 24 => 9  case 25 => 11  case 26 => 18  case 27 => 24
    case 28 => 31  case 29 => 40  case 30 => 44  case _ => 53
  }

  function UnzigThird(k: nat): nat {
    match k
    case 32 => 10  case 33 => 19  case 34 => 23  case 35 => 32
    case 36 => 39  case 37 => 45  case 38 => 52  case 39 => 54
    case 40 => 20  case 41 => 22  case 42 => 33  case 43 => 38
    case 44 => 46  case 45 => 51  case 46 => 55  case _ => 60
  }

  function UnzigFourth(k: nat): nat {
    match k
    case 48 => 21  case 49 => 34  case 50 => 37  case 51 => 47
    case 52 => 50  case 53 => 56  case 54 => 59  case 55 => 61
    case 56 => 35  case 57 => 36  case 58 => 48  case 59 => 49
    case 60 => 57  case 61 => 58  case 62 => 62  case _ => 63
  }

  lemma ZigInverts(k: nat)
    requires k < 64
    ensures Zig(k) < 64 && Unzig(Zig(k)) == k
  {
    if k < 16 {
    } else if k < 32 {
    } else if k < 48 {
    } else {
    }
  }

  lemma UnzigInverts(i: nat)
    requires i < 64
    ensures Unzig(i) < 64 && Zig(Unzig(i)) == i
  {
    if i < 16 {
    } else if i < 32 {
    } else if i < 48 {
    } else {
    }
  }

  /** The place after this one: up the anti-diagonals whose row and column have an even sum and down the
      others, turning at the edges. */
  function Next(z: nat): nat {
    var r, c := z / 8, z % 8;
    if (r + c) % 2 == 0 then
      if c == 7 then z + 8 else if r == 0 then z + 1 else z - 7
    else if r == 7 then z + 1
    else if c == 0 then z + 8
    else z + 7
  }

  predicate Walks(k: nat) {
    Zig(k + 1) == Next(Zig(k))
  }

  lemma WalksFrom0()
    ensures Walks(0) && Walks(1) && Walks(2) && Walks(3) && Walks(4) && Walks(5) && Walks(6) && Walks(7)
  {
  }

  lemma WalksFrom8()
    ensures Walks(8) && Walks(9) && Walks(10) && Walks(11) && Walks(12) && Walks(13) && Walks(14) && Walks(15)
  {
  }

  lemma WalksFrom16()
    ensures Walks(16) && Walks(17) && Walks(18) && Walks(19) && Walks(20) && Walks(21) && Walks(22) && Walks(23)
  {
  }

  lemma WalksFrom24()
    ensures Walks(24) && Walks(25) && Walks(26) && Walks(27) && Walks(28) && Walks(29) && Walks(30) && Walks(31)
  {
  }

  lemma WalksFrom32()
    ensures Walks(32) && Walks(33) && Walks(34) && Walks(35) && Walks(36) && Walks(37) && Walks(38) && Walks(39)
  {
  }

  lemma WalksFrom40()
    ensures Walks(40) && Walks(41) && Walks(42) && Walks(43) && Walks(44) && Walks(45) && Walks(46) && Walks(47)
  {
  }

  lemma WalksFrom48()
    ensures Walks(48) && Walks(49) && Walks(50) && Walks(51) && Walks(52) && Walks(53) && Walks(54) && Walks(55)
  {
  }

  lemma WalksFrom56()
    ensures Walks(56) && Walks(57) && Walks(58) && Walks(59) && Walks(60) && Walks(61) && Walks(62)
  {
  }

  /** The order is that walk, from the top left corner. */
  lemma ZigWalks(k: nat)
    requires k < 63
    ensures Zig(0) == 0 && Zig(k + 1) == Next(Zig(k))
  {
    WalksThere(k);
  }

  lemma WalksThere(k: nat)
    requires k < 63
    ensures Walks(k)
  {
    hide Walks, Zig, Next;
    if k < 8 {
      WalksFrom0();
    } else if k < 16 {
      WalksFrom8();
    } else if k < 24 {
      WalksFrom16();
    } else if k < 32 {
      WalksFrom24();
    } else if k < 40 {
      WalksFrom32();
    } else if k < 48 {
      WalksFrom40();
    } else if k < 56 {
      WalksFrom48();
    } else {
      WalksFrom56();
    }
  }
}
