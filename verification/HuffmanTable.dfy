/** The Huffman code of HTTP/2 header strings (RFC 7541, appendix B), as the encoder's table gives it. */
module HuffmanTable {

  /** A symbol's code: its length in bits and its value, the first bit highest. */
  datatype Sym = Sym(bits: nat, code: nat)

  /** The symbol that ends a string and must not occur in one. */
  const EOS: nat := 256

  /** `huff_sym_table`. */
  function HuffSym(s: nat): Sym {
    match s / 16
    case 0 => Row0(s % 16)      case 1 => Row1(s % 16)      case 2 => Row2(s % 16)
    case 3 => Row3(s % 16)      case 4 => Row4(s % 16)      case 5 => Row5(s % 16)
    case 6 => Row6(s % 16)      case 7 => Row7(s % 16)      case 8 => Row8(s % 16)
    case 9 => Row9(s % 16)      case 10 => Row10(s % 16)    case 11 => Row11(s % 16)
    case 12 => Row12(s % 16)    case 13 => Row13(s % 16)    case 14 => Row14(s % 16)
    case 15 => Row15(s % 16)    case 16 => Row16(s % 16)
    case _ => Sym(0, 0)
  }

  /** The first code of each length. */
  function First(bits: nat): nat {
    match bits
    case 6 => 0x14             case 7 => 0x5c             case 8 => 0xf8             case 9 => 0x1fc
    case 10 => 0x3f8           case 11 => 0x7fa           case 12 => 0xffa           case 13 => 0x1ff8
    case 14 => 0x3ffc          case 15 => 0x7ffc          case 16 => 0xfffe          case 17 => 0x1fffc
    case 18 => 0x3fff8         case 19 => 0x7fff0         case 20 => 0xfffe6         case 21 => 0x1fffdc
    case 22 => 0x3fffd2        case 23 => 0x7fffd8        case 24 => 0xffffea        case 25 => 0x1ffffec
    case 26 => 0x3ffffe0       case 27 => 0x7ffffde       case 28 => 0xfffffe2       case 29 => 0x1ffffffe
    case 30 => 0x3ffffffc
    case _ => 0
  }

  /** How many codes each length has. */
  function Total(bits: nat): nat {
    match bits
    case 5 => 10     case 6 => 26     case 7 => 32     case 8 => 6
    case 10 => 5     case 11 => 3
    case 12 => 2     case 13 => 6     case 14 => 2     case 15 => 3
    case 19 => 3     case 20 => 8
    case 21 => 13    case 22 => 26    case 23 => 29    case 24 => 12
    case 25 => 4     case 26 => 15
    case 27 => 19    case 28 => 29    case 30 => 4
    case _ => 0
  }

  /** Codes of one length follow each other, and the next length goes on where they end. */
  lemma FirstIsNext(bits: nat)
    requires bits < 30
    ensures First(bits + 1) == 2 * (First(bits) + Total(bits))
  {
  }

  /** The symbols of each length in the order of their codes. */
  function Ranked(bits: nat, k: nat): nat {
    match bits
    case 5 => Ranked5(k)     case 6 => Ranked6(k)     case 7 => Ranked7(k)     case 8 => Ranked8(k)
    case 10 => Ranked10(k)   case 11 => Ranked11(k)   case 12 => Ranked12(k)   case 13 => Ranked13(k)
    case 14 => Ranked14(k)   case 15 => Ranked15(k)   case 19 => Ranked19(k)   case 20 => Ranked20(k)
    case 21 => Ranked21(k)   case 22 => Ranked22(k)   case 23 => Ranked23(k)   case 24 => Ranked24(k)
    case 25 => Ranked25(k)   case 26 => Ranked26(k)   case 27 => Ranked27(k)   case 28 => Ranked28(k)
    case 30 => Ranked30(k)
    case _ => 257
  }

  lemma RankedRises(bits: nat, k: nat)
    requires k + 1 < Total(bits)
    ensures Ranked(bits, k) < Ranked(bits, k + 1)
  {
  }

  lemma {:induction false} RankedApart(bits: nat, j: nat, k: nat)
    requires j < k < Total(bits)
    ensures Ranked(bits, j) < Ranked(bits, k)
    decreases k
  {
    hide Ranked;
    RankedRises(bits, k - 1);
    if j < k - 1 {
      RankedApart(bits, j, k - 1);
    }
  }

  /** Codes of one length stand in the order of their symbols. */
  lemma CodesRise(a: nat, b: nat)
    requires a < b <= EOS && HuffSym(a).bits == HuffSym(b).bits
    ensures HuffSym(a).code < HuffSym(b).code
  {
    hide HuffSym, Ranked, First, Total;
    AllPlaced(a);
    AllPlaced(b);
    var bits := HuffSym(a).bits;
    var j, k := HuffSym(a).code - First(bits), HuffSym(b).code - First(bits);
    if k < j {
      RankedApart(bits, k, j);
    }
  }

  /** A symbol stands where its code says. */
  predicate Placed(s: nat) {
    var h := HuffSym(s);
    && 5 <= h.bits <= 30
    && First(h.bits) <= h.code < First(h.bits) + Total(h.bits)
    && Ranked(h.bits, h.code - First(h.bits)) == s
  }

  lemma AllPlaced(s: nat)
    requires s <= EOS
    ensures Placed(s)
  {
    if s < 16 { Placed0(); }
    else if s < 32 { Placed8(); }
    else if s < 64 { Placed1(); }
    else if s < 96 { Placed2(); }
    else if s < 128 { Placed3(); }
    else if s < 160 { Placed4(); }
    else if s < 192 { Placed5(); }
    else if s < 224 { Placed6(); }
    else { Placed7(); }
  }

  lemma Placed0()
    ensures forall s | 0 <= s < 16 :: Placed(s)
  {
  }

  lemma Placed1()
    ensures forall s | 32 <= s < 64 :: Placed(s)
  {
  }

  lemma Placed2()
    ensures forall s | 64 <= s < 96 :: Placed(s)
  {
  }

  lemma Placed3()
    ensures forall s | 96 <= s < 128 :: Placed(s)
  {
  }

  lemma Placed4()
    ensures forall s | 128 <= s < 160 :: Placed(s)
  {
  }

  lemma Placed5()
    ensures forall s | 160 <= s < 192 :: Placed(s)
  {
  }

  lemma Placed6()
    ensures forall s | 192 <= s < 224 :: Placed(s)
  {
  }

  lemma Placed7()
    ensures forall s | 224 <= s < 257 :: Placed(s)
  {
  }

  lemma Placed8()
    ensures forall s | 16 <= s < 32 :: Placed(s)
  {
  }

  /** Conversely, the symbol at a place has the code of that place. */
  predicate Coded(bits: nat, k: nat) {
    var s := Ranked(bits, k);
    s <= EOS && HuffSym(s) == Sym(bits, First(bits) + k)
  }

  lemma AllCoded(bits: nat, k: nat)
    requires bits <= 30 && k < Total(bits)
    ensures Coded(bits, k)
  {
    match bits
    case 5 => Coded5();      case 6 => Coded6();      case 7 => Coded7();      case 8 => Coded8();
    case 10 => Coded10();    case 11 => Coded11();    case 12 => Coded12();    case 13 => Coded13();
    case 14 => Coded14();    case 15 => Coded15();    case 19 => Coded19();    case 20 => Coded20();
    case 21 => Coded21();    case 22 => Coded22();    case 23 => Coded23();    case 24 => Coded24();
    case 25 => Coded25();    case 26 => Coded26();    case 27 => Coded27();    case 28 => Coded28();
    case 30 => Coded30();
    case _ =>
  }

  lemma Coded5()
    ensures forall k | 0 <= k < Total(5) :: Coded(5, k)
  {
  }

  lemma Coded6()
    ensures forall k | 0 <= k < Total(6) :: Coded(6, k)
  {
  }

  lemma Coded7()
    ensures forall k | 0 <= k < Total(7) :: Coded(7, k)
  {
  }

  lemma Coded8()
    ensures forall k | 0 <= k < Total(8) :: Coded(8, k)
  {
  }

  lemma Coded10()
    ensures forall k | 0 <= k < Total(10) :: Coded(10, k)
  {
  }

  lemma Coded11()
    ensures forall k | 0 <= k < Total(11) :: Coded(11, k)
  {
  }

  lemma Coded12()
    ensures forall k | 0 <= k < Total(12) :: Coded(12, k)
  {
  }

  lemma Coded13()
    ensures forall k | 0 <= k < Total(13) :: Coded(13, k)
  {
  }

  lemma Coded14()
    ensures forall k | 0 <= k < Total(14) :: Coded(14, k)
  {
  }

  lemma Coded15()
    ensures forall k | 0 <= k < Total(15) :: Coded(15, k)
  {
  }

  lemma Coded19()
    ensures forall k | 0 <= k < Total(19) :: Coded(19, k)
  {
  }

  lemma Coded20()
    ensures forall k | 0 <= k < Total(20) :: Coded(20, k)
  {
  }

  lemma Coded21()
    ensures forall k | 0 <= k < Total(21) :: Coded(21, k)
  {
  }

  lemma Coded22()
    ensures forall k | 0 <= k < Total(22) :: Coded(22, k)
  {
  }

  lemma Coded23()
    ensures forall k | 0 <= k < Total(23) :: Coded(23, k)
  {
  }

  lemma Coded24()
    ensures forall k | 0 <= k < Total(24) :: Coded(24, k)
  {
  }

  lemma Coded25()
    ensures forall k | 0 <= k < Total(25) :: Coded(25, k)
  {
  }

  lemma Coded26()
    ensures forall k | 0 <= k < Total(26) :: Coded(26, k)
  {
  }

  lemma Coded27()
    ensures forall k | 0 <= k < Total(27) :: Coded(27, k)
  {
  }

  lemma Coded28()
    ensures forall k | 0 <= k < Total(28) :: Coded(28, k)
  {
  }

  lemma Coded30()
    ensures forall k | 0 <= k < Total(30) :: Coded(30, k)
  {
  }

  function Row0(j: nat): Sym {
    match j
    case 0 => Sym(13, 0x1ff8)         case 1 => Sym(23, 0x7fffd8)
    case 2 => Sym(28, 0xfffffe2)      case 3 => Sym(28, 0xfffffe3)
    case 4 => Sym(28, 0xfffffe4)      case 5 => Sym(28, 0xfffffe5)
    case 6 => Sym(28, 0xfffffe6)      case 7 => Sym(28, 0xfffffe7)
    case 8 => Sym(28, 0xfffffe8)      case 9 => Sym(24, 0xffffea)
    case 10 => Sym(30, 0x3ffffffc)    case 11 => Sym(28, 0xfffffe9)
    case 12 => Sym(28, 0xfffffea)     case 13 => Sym(30, 0x3ffffffd)
    case 14 => Sym(28, 0xfffffeb)     case 15 => Sym(28, 0xfffffec)
    case _ => Sym(0, 0)
  }

  function Row1(j: nat): Sym {
    match j
    case 0 => Sym(28, 0xfffffed)      case 1 => Sym(28, 0xfffffee)
    case 2 => Sym(28, 0xfffffef)      case 3 => Sym(28, 0xffffff0)
    case 4 => Sym(28, 0xffffff1)      case 5 => Sym(28, 0xffffff2)
    case 6 => Sym(30, 0x3ffffffe)     case 7 => Sym(28, 0xffffff3)
    case 8 => Sym(28, 0xffffff4)      case 9 => Sym(28, 0xffffff5)
    case 10 => Sym(28, 0xffffff6)     case 11 => Sym(28, 0xffffff7)
    case 12 => Sym(28, 0xffffff8)     case 13 => Sym(28, 0xffffff9)
    case 14 => Sym(28, 0xffffffa)     case 15 => Sym(28, 0xffffffb)
    case _ => Sym(0, 0)
  }

  function Row2(j: nat): Sym {
    match j
    case 0 => Sym(6, 0x14)            case 1 => Sym(10, 0x3f8)
    case 2 => Sym(10, 0x3f9)          case 3 => Sym(12, 0xffa)
    case 4 => Sym(13, 0x1ff9)         case 5 => Sym(6, 0x15)
    case 6 => Sym(8, 0xf8)            case 7 => Sym(11, 0x7fa)
    case 8 => Sym(10, 0x3fa)          case 9 => Sym(10, 0x3fb)
    case 10 => Sym(8, 0xf9)           case 11 => Sym(11, 0x7fb)
    case 12 => Sym(8, 0xfa)           case 13 => Sym(6, 0x16)
    case 14 => Sym(6, 0x17)           case 15 => Sym(6, 0x18)
    case _ => Sym(0, 0)
  }

  function Row3(j: nat): Sym {
    match j
    case 0 => Sym(5, 0x0)             case 1 => Sym(5, 0x1)
    case 2 => Sym(5, 0x2)             case 3 => Sym(6, 0x19)
    case 4 => Sym(6, 0x1a)            case 5 => Sym(6, 0x1b)
    case 6 => Sym(6, 0x1c)            case 7 => Sym(6, 0x1d)
    case 8 => Sym(6, 0x1e)            case 9 => Sym(6, 0x1f)
    case 10 => Sym(7, 0x5c)           case 11 => Sym(8, 0xfb)
    case 12 => Sym(15, 0x7ffc)        case 13 => Sym(6, 0x20)
    case 14 => Sym(12, 0xffb)         case 15 => Sym(10, 0x3fc)
    case _ => Sym(0, 0)
  }

  function Row4(j: nat): Sym {
    match j
    case 0 => Sym(13, 0x1ffa)         case 1 => Sym(6, 0x21)
    case 2 => Sym(7, 0x5d)            case 3 => Sym(7, 0x5e)
    case 4 => Sym(7, 0x5f)            case 5 => Sym(7, 0x60)
    case 6 => Sym(7, 0x61)            case 7 => Sym(7, 0x62)
    case 8 => Sym(7, 0x63)            case 9 => Sym(7, 0x64)
    case 10 => Sym(7, 0x65)           case 11 => Sym(7, 0x66)
    case 12 => Sym(7, 0x67)           case 13 => Sym(7, 0x68)
    case 14 => Sym(7, 0x69)           case 15 => Sym(7, 0x6a)
    case _ => Sym(0, 0)
  }

  function Row5(j: nat): Sym {
    match j
    case 0 => Sym(7, 0x6b)            case 1 => Sym(7, 0x6c)
    case 2 => Sym(7, 0x6d)            case 3 => Sym(7, 0x6e)
    case 4 => Sym(7, 0x6f)            case 5 => Sym(7, 0x70)
    case 6 => Sym(7, 0x71)            case 7 => Sym(7, 0x72)
    case 8 => Sym(8, 0xfc)            case 9 => Sym(7, 0x73)
    case 10 => Sym(8, 0xfd)           case 11 => Sym(13, 0x1ffb)
    case 12 => Sym(19, 0x7fff0)       case 13 => Sym(13, 0x1ffc)
    case 14 => Sym(14, 0x3ffc)        case 15 => Sym(6, 0x22)
    case _ => Sym(0, 0)
  }

  function Row6(j: nat): Sym {
    match j
    case 0 => Sym(15, 0x7ffd)         case 1 => Sym(5, 0x3)
    case 2 => Sym(6, 0x23)            case 3 => Sym(5, 0x4)
    case 4 => Sym(6, 0x24)            case 5 => Sym(5, 0x5)
    case 6 => Sym(6, 0x25)            case 7 => Sym(6, 0x26)
    case 8 => Sym(6, 0x27)            case 9 => Sym(5, 0x6)
    case 10 => Sym(7, 0x74)           case 11 => Sym(7, 0x75)
    case 12 => Sym(6, 0x28)           case 13 => Sym(6, 0x29)
    case 14 => Sym(6, 0x2a)           case 15 => Sym(5, 0x7)
    case _ => Sym(0, 0)
  }

  function Row7(j: nat): Sym {
    match j
    case 0 => Sym(6, 0x2b)            case 1 => Sym(7, 0x76)
    case 2 => Sym(6, 0x2c)            case 3 => Sym(5, 0x8)
    case 4 => Sym(5, 0x9)             case 5 => Sym(6, 0x2d)
    case 6 => Sym(7, 0x77)            case 7 => Sym(7, 0x78)
    case 8 => Sym(7, 0x79)            case 9 => Sym(7, 0x7a)
    case 10 => Sym(7, 0x7b)           case 11 => Sym(15, 0x7ffe)
    case 12 => Sym(11, 0x7fc)         case 13 => Sym(14, 0x3ffd)
    case 14 => Sym(13, 0x1ffd)        case 15 => Sym(28, 0xffffffc)
    case _ => Sym(0, 0)
  }

  function Row8(j: nat): Sym {
    match j
    case 0 => Sym(20, 0xfffe6)        case 1 => Sym(22, 0x3fffd2)
    case 2 => Sym(20, 0xfffe7)        case 3 => Sym(20, 0xfffe8)
    case 4 => Sym(22, 0x3fffd3)       case 5 => Sym(22, 0x3fffd4)
    case 6 => Sym(22, 0x3fffd5)       case 7 => Sym(23, 0x7fffd9)
    case 8 => Sym(22, 0x3fffd6)       case 9 => Sym(23, 0x7fffda)
    case 10 => Sym(23, 0x7fffdb)      case 11 => Sym(23, 0x7fffdc)
    case 12 => Sym(23, 0x7fffdd)      case 13 => Sym(23, 0x7fffde)
    case 14 => Sym(24, 0xffffeb)      case 15 => Sym(23, 0x7fffdf)
    case _ => Sym(0, 0)
  }

  function Row9(j: nat): Sym {
    match j
    case 0 => Sym(24, 0xffffec)       case 1 => Sym(24, 0xffffed)
    case 2 => Sym(22, 0x3fffd7)       case 3 => Sym(23, 0x7fffe0)
    case 4 => Sym(24, 0xffffee)       case 5 => Sym(23, 0x7fffe1)
    case 6 => Sym(23, 0x7fffe2)       case 7 => Sym(23, 0x7fffe3)
    case 8 => Sym(23, 0x7fffe4)       case 9 => Sym(21, 0x1fffdc)
    case 10 => Sym(22, 0x3fffd8)      case 11 => Sym(23, 0x7fffe5)
    case 12 => Sym(22, 0x3fffd9)      case 13 => Sym(23, 0x7fffe6)
    case 14 => Sym(23, 0x7fffe7)      case 15 => Sym(24, 0xffffef)
    case _ => Sym(0, 0)
  }

  function Row10(j: nat): Sym {
    match j
    case 0 => Sym(22, 0x3fffda)       case 1 => Sym(21, 0x1fffdd)
    case 2 => Sym(20, 0xfffe9)        case 3 => Sym(22, 0x3fffdb)
    case 4 => Sym(22, 0x3fffdc)       case 5 => Sym(23, 0x7fffe8)
    case 6 => Sym(23, 0x7fffe9)       case 7 => Sym(21, 0x1fffde)
    case 8 => Sym(23, 0x7fffea)       case 9 => Sym(22, 0x3fffdd)
    case 10 => Sym(22, 0x3fffde)      case 11 => Sym(24, 0xfffff0)
    case 12 => Sym(21, 0x1fffdf)      case 13 => Sym(22, 0x3fffdf)
    case 14 => Sym(23, 0x7fffeb)      case 15 => Sym(23, 0x7fffec)
    case _ => Sym(0, 0)
  }

  function Row11(j: nat): Sym {
    match j
    case 0 => Sym(21, 0x1fffe0)       case 1 => Sym(21, 0x1fffe1)
    case 2 => Sym(22, 0x3fffe0)       case 3 => Sym(21, 0x1fffe2)
    case 4 => Sym(23, 0x7fffed)       case 5 => Sym(22, 0x3fffe1)
    case 6 => Sym(23, 0x7fffee)       case 7 => Sym(23, 0x7fffef)
    case 8 => Sym(20, 0xfffea)        case 9 => Sym(22, 0x3fffe2)
    case 10 => Sym(22, 0x3fffe3)      case 11 => Sym(22, 0x3fffe4)
    case 12 => Sym(23, 0x7ffff0)      case 13 => Sym(22, 0x3fffe5)
    case 14 => Sym(22, 0x3fffe6)      case 15 => Sym(23, 0x7ffff1)
    case _ => Sym(0, 0)
  }

  function Row12(j: nat): Sym {
    match j
    case 0 => Sym(26, 0x3ffffe0)      case 1 => Sym(26, 0x3ffffe1)
    case 2 => Sym(20, 0xfffeb)        case 3 => Sym(19, 0x7fff1)
    case 4 => Sym(22, 0x3fffe7)       case 5 => Sym(23, 0x7ffff2)
    case 6 => Sym(22, 0x3fffe8)       case 7 => Sym(25, 0x1ffffec)
    case 8 => Sym(26, 0x3ffffe2)      case 9 => Sym(26, 0x3ffffe3)
    case 10 => Sym(26, 0x3ffffe4)     case 11 => Sym(27, 0x7ffffde)
    case 12 => Sym(27, 0x7ffffdf)     case 13 => Sym(26, 0x3ffffe5)
    case 14 => Sym(24, 0xfffff1)      case 15 => Sym(25, 0x1ffffed)
    case _ => Sym(0, 0)
  }

  function Row13(j: nat): Sym {
    match j
    case 0 => Sym(19, 0x7fff2)        case 1 => Sym(21, 0x1fffe3)
    case 2 => Sym(26, 0x3ffffe6)      case 3 => Sym(27, 0x7ffffe0)
    case 4 => Sym(27, 0x7ffffe1)      case 5 => Sym(26, 0x3ffffe7)
    case 6 => Sym(27, 0x7ffffe2)      case 7 => Sym(24, 0xfffff2)
    case 8 => Sym(21, 0x1fffe4)       case 9 => Sym(21, 0x1fffe5)
    case 10 => Sym(26, 0x3ffffe8)     case 11 => Sym(26, 0x3ffffe9)
    case 12 => Sym(28, 0xffffffd)     case 13 => Sym(27, 0x7ffffe3)
    case 14 => Sym(27, 0x7ffffe4)     case 15 => Sym(27, 0x7ffffe5)
    case _ => Sym(0, 0)
  }

  function Row14(j: nat): Sym {
    match j
    case 0 => Sym(20, 0xfffec)        case 1 => Sym(24, 0xfffff3)
    case 2 => Sym(20, 0xfffed)        case 3 => Sym(21, 0x1fffe6)
    case 4 => Sym(22, 0x3fffe9)       case 5 => Sym(21, 0x1fffe7)
    case 6 => Sym(21, 0x1fffe8)       case 7 => Sym(23, 0x7ffff3)
    case 8 => Sym(22, 0x3fffea)       case 9 => Sym(22, 0x3fffeb)
    case 10 => Sym(25, 0x1ffffee)     case 11 => Sym(25, 0x1ffffef)
    case 12 => Sym(24, 0xfffff4)      case 13 => Sym(24, 0xfffff5)
    case 14 => Sym(26, 0x3ffffea)     case 15 => Sym(23, 0x7ffff4)
    case _ => Sym(0, 0)
  }

  function Row15(j: nat): Sym {
    match j
    case 0 => Sym(26, 0x3ffffeb)      case 1 => Sym(27, 0x7ffffe6)
    case 2 => Sym(26, 0x3ffffec)      case 3 => Sym(26, 0x3ffffed)
    case 4 => Sym(27, 0x7ffffe7)      case 5 => Sym(27, 0x7ffffe8)
    case 6 => Sym(27, 0x7ffffe9)      case 7 => Sym(27, 0x7ffffea)
    case 8 => Sym(27, 0x7ffffeb)      case 9 => Sym(28, 0xffffffe)
    case 10 => Sym(27, 0x7ffffec)     case 11 => Sym(27, 0x7ffffed)
    case 12 => Sym(27, 0x7ffffee)     case 13 => Sym(27, 0x7ffffef)
    case 14 => Sym(27, 0x7fffff0)     case 15 => Sym(26, 0x3ffffee)
    case _ => Sym(0, 0)
  }

  function Row16(j: nat): Sym {
    match j
    case 0 => Sym(30, 0x3fffffff)
    case _ => Sym(0, 0)
  }

  function Ranked5(k: nat): nat {
    match k
    case 0 => 48     case 1 => 49     case 2 => 50     case 3 => 97
    case 4 => 99     case 5 => 101    case 6 => 105    case 7 => 111
    case 8 => 115  case 9 => 116
    case _ => 257
  }

  function Ranked6(k: nat): nat {
    match k
    case 0 => 32     case 1 => 37     case 2 => 45     case 3 => 46
    case 4 => 47     case 5 => 51     case 6 => 52     case 7 => 53
    case 8 => 54     case 9 => 55     case 10 => 56    case 11 => 57
    case 12 => 61    case 13 => 65    case 14 => 95    case 15 => 98
    case 16 => 100   case 17 => 102   case 18 => 103   case 19 => 104
    case 20 => 108   case 21 => 109   case 22 => 110   case 23 => 112
    case 24 => 114 case 25 => 117
    case _ => 257
  }

  function Ranked7(k: nat): nat {
    match k
    case 0 => 58     case 1 => 66     case 2 => 67     case 3 => 68
    case 4 => 69     case 5 => 70     case 6 => 71     case 7 => 72
    case 8 => 73     case 9 => 74     case 10 => 75    case 11 => 76
    case 12 => 77    case 13 => 78    case 14 => 79    case 15 => 80
    case 16 => 81    case 17 => 82    case 18 => 83    case 19 => 84
    case 20 => 85    case 21 => 86    case 22 => 87    case 23 => 89
    case 24 => 106   case 25 => 107   case 26 => 113   case 27 => 118
    case 28 => 119   case 29 => 120   case 30 => 121   case 31 => 122
    case _ => 257
  }

  function Ranked8(k: nat): nat {
    match k
    case 0 => 38     case 1 => 42     case 2 => 44     case 3 => 59
    case 4 => 88     case 5 => 90
    case _ => 257
  }

  function Ranked10(k: nat): nat {
    match k
    case 0 => 33     case 1 => 34     case 2 => 40     case 3 => 41
    case 4 => 63
    case _ => 257
  }

  function Ranked11(k: nat): nat {
    match k
    case 0 => 39     case 1 => 43     case 2 => 124
    case _ => 257
  }

  function Ranked12(k: nat): nat {
    match k
    case 0 => 35   case 1 => 62
    case _ => 257
  }

  function Ranked13(k: nat): nat {
    match k
    case 0 => 0      case 1 => 36     case 2 => 64     case 3 => 91
    case 4 => 93     case 5 => 126
    case _ => 257
  }

  function Ranked14(k: nat): nat {
    match k
    case 0 => 94   case 1 => 125
    case _ => 257
  }

  function Ranked15(k: nat): nat {
    match k
    case 0 => 60     case 1 => 96     case 2 => 123
    case _ => 257
  }

  function Ranked19(k: nat): nat {
    match k
    case 0 => 92     case 1 => 195    case 2 => 208
    case _ => 257
  }

  function Ranked20(k: nat): nat {
    match k
    case 0 => 128    case 1 => 130    case 2 => 131    case 3 => 162
    case 4 => 184    case 5 => 194    case 6 => 224    case 7 => 226
    case _ => 257
  }

  function Ranked21(k: nat): nat {
    match k
    case 0 => 153    case 1 => 161    case 2 => 167    case 3 => 172
    case 4 => 176    case 5 => 177    case 6 => 179    case 7 => 209
    case 8 => 216    case 9 => 217    case 10 => 227   case 11 => 229
    case 12 => 230
    case _ => 257
  }

  function Ranked22(k: nat): nat {
    match k
    case 0 => 129    case 1 => 132    case 2 => 133    case 3 => 134
    case 4 => 136    case 5 => 146    case 6 => 154    case 7 => 156
    case 8 => 160    case 9 => 163    case 10 => 164   case 11 => 169
    case 12 => 170   case 13 => 173   case 14 => 178   case 15 => 181
    case 16 => 185   case 17 => 186   case 18 => 187   case 19 => 189
    case 20 => 190   case 21 => 196   case 22 => 198   case 23 => 228
    case 24 => 232 case 25 => 233
    case _ => 257
  }

  function Ranked23(k: nat): nat {
    match k
    case 0 => 1      case 1 => 135    case 2 => 137    case 3 => 138
    case 4 => 139    case 5 => 140    case 6 => 141    case 7 => 143
    case 8 => 147    case 9 => 149    case 10 => 150   case 11 => 151
    case 12 => 152   case 13 => 155   case 14 => 157   case 15 => 158
    case 16 => 165   case 17 => 166   case 18 => 168   case 19 => 174
    case 20 => 175   case 21 => 180   case 22 => 182   case 23 => 183
    case 24 => 188   case 25 => 191   case 26 => 197   case 27 => 231
    case 28 => 239
    case _ => 257
  }

  function Ranked24(k: nat): nat {
    match k
    case 0 => 9      case 1 => 142    case 2 => 144    case 3 => 145
    case 4 => 148    case 5 => 159    case 6 => 171    case 7 => 206
    case 8 => 215    case 9 => 225    case 10 => 236   case 11 => 237
    case _ => 257
  }

  function Ranked25(k: nat): nat {
    match k
    case 0 => 199    case 1 => 207    case 2 => 234    case 3 => 235
    case _ => 257
  }

  function Ranked26(k: nat): nat {
    match k
    case 0 => 192    case 1 => 193    case 2 => 200    case 3 => 201
    case 4 => 202    case 5 => 205    case 6 => 210    case 7 => 213
    case 8 => 218    case 9 => 219    case 10 => 238   case 11 => 240
    case 12 => 242   case 13 => 243   case 14 => 255
    case _ => 257
  }

  function Ranked27(k: nat): nat {
    match k
    case 0 => 203    case 1 => 204    case 2 => 211    case 3 => 212
    case 4 => 214    case 5 => 221    case 6 => 222    case 7 => 223
    case 8 => 241    case 9 => 244    case 10 => 245   case 11 => 246
    case 12 => 247   case 13 => 248   case 14 => 250   case 15 => 251
    case 16 => 252   case 17 => 253   case 18 => 254
    case _ => 257
  }

  function Ranked28(k: nat): nat {
    match k
    case 0 => 2      case 1 => 3      case 2 => 4      case 3 => 5
    case 4 => 6      case 5 => 7      case 6 => 8      case 7 => 11
    case 8 => 12     case 9 => 14     case 10 => 15    case 11 => 16
    case 12 => 17    case 13 => 18    case 14 => 19    case 15 => 20
    case 16 => 21    case 17 => 23    case 18 => 24    case 19 => 25
    case 20 => 26    case 21 => 27    case 22 => 28    case 23 => 29
    case 24 => 30    case 25 => 31    case 26 => 127   case 27 => 220
    case 28 => 249
    case _ => 257
  }

  function Ranked30(k: nat): nat {
    match k
    case 0 => 10     case 1 => 13     case 2 => 22     case 3 => 256
    case _ => 257
  }
}
