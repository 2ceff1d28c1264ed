/** The standard Huffman tables of ITU T.81 Annex K.3, and the code books made from them. */
module StandardTables {
  import opened Bits
  import opened Huffman
  import opened BlockCodec
  import opened StripSpec

  /** The DC symbols at the head of a 256-entry array, as the decoder stores them. */
  function DcVals(): (v: seq<byte>)
    ensures |v| == 256 && forall i :: 0 <= i < 256 ==> v[i] == if i < 12 then i else 0
  {
    seq(256, i => if 0 <= i < 12 then i else 0)
  }

  function DcLum(): Table {
    Table([0, 1, 5, 1, 1, 1, 1, 1, 1, 0, 0, 0, 0, 0, 0, 0], DcVals())
  }

  function DcChrom(): Table {
    Table([0, 3, 1, 1, 1, 1, 1, 1, 1, 1, 1, 0, 0, 0, 0, 0], DcVals())
  }

  function AcLum(): (t: Table)
    ensures |t.vals| == 256 && forall i :: 0 <= i < 256 ==> t.vals[i] == if i < 162 then AcLumVal(i) else 0
  {
    Table([0, 2, 1, 3, 3, 2, 4, 3, 5, 5, 4, 4, 0, 0, 1, 125], seq(256, i => if 0 <= i < 162 then AcLumVal(i) else 0))
  }

  function AcChrom(): (t: Table)
    ensures |t.vals| == 256 && forall i :: 0 <= i < 256 ==> t.vals[i] == if i < 162 then AcChromVal(i) else 0
  {
    Table([0, 2, 1, 2, 4, 4, 3, 4, 7, 5, 4, 4, 0, 1, 2, 119], seq(256, i => if 0 <= i < 162 then AcChromVal(i) else 0))
  }

  /** The symbols AC coding can need: a run and a category, end of block, sixteen zeros. */
  predicate NeededAc(s: byte) {
    1 <= s % 16 <= 10 || s == 0 || s == 0xF0
  }

  /** Symbol k of the luminance AC table. */
  function AcLumVal(k: nat): byte {
    var hi, lo := k / 16, k % 16;
    match hi
    case 0 => (match lo
      case 0 => 0x01  case 1 => 0x02  case 2 => 0x03  case 3 => 0x00  case 4 => 0x04  case 5 => 0x11  case 6 => 0x05  case 7 => 0x12
      case 8 => 0x21  case 9 => 0x31  case 10 => 0x41  case 11 => 0x06  case 12 => 0x13  case 13 => 0x51  case 14 => 0x61  case _ => 0x07)
    case 1 => (match lo
      case 0 => 0x22  case 1 => 0x71  case 2 => 0x14  case 3 => 0x32  case 4 => 0x81  case 5 => 0x91  case 6 => 0xa1  case 7 => 0x08
      case 8 => 0x23  case 9 => 0x42  case 10 => 0xb1  case 11 => 0xc1  case 12 => 0x15  case 13 => 0x52  case 14 => 0xd1  case _ => 0xf0)
    case 2 => (match lo
      case 0 => 0x24  case 1 => 0x33  case 2 => 0x62  case 3 => 0x72  case 4 => 0x82  case 5 => 0x09  case 6 => 0x0a  case 7 => 0x16
      case 8 => 0x17  case 9 => 0x18  case 10 => 0x19  case 11 => 0x1a  case 12 => 0x25  case 13 => 0x26  case 14 => 0x27  case _ => 0x28)
    case 3 => (match lo
      case 0 => 0x29  case 1 => 0x2a  case 2 => 0x34  case 3 => 0x35  case 4 => 0x36  case 5 => 0x37  case 6 => 0x38  case 7 => 0x39
      case 8 => 0x3a  case 9 => 0x43  case 10 => 0x44  case 11 => 0x45  case 12 => 0x46  case 13 => 0x47  case 14 => 0x48  case _ => 0x49)
    case 4 => (match lo
      case 0 => 0x4a  case 1 => 0x53  case 2 => 0x54  case 3 => 0x55  case 4 => 0x56  case 5 => 0x57  case 6 => 0x58  case 7 => 0x59
      case 8 => 0x5a  case 9 => 0x63  case 10 => 0x64  case 11 => 0x65  case 12 => 0x66  case 13 => 0x67  case 14 => 0x68  case _ => 0x69)
    case 5 => (match lo
      case 0 => 0x6a  case 1 => 0x73  case 2 => 0x74  case 3 => 0x75  case 4 => 0x76  case 5 => 0x77  case 6 => 0x78  case 7 => 0x79
      case 8 => 0x7a  case 9 => 0x83  case 10 => 0x84  case 11 => 0x85  case 12 => 0x86  case 13 => 0x87  case 14 => 0x88  case _ => 0x89)
    case 6 => (match lo
      case 0 => 0x8a  case 1 => 0x92  case 2 => 0x93  case 3 => 0x94  case 4 => 0x95  case 5 => 0x96  case 6 => 0x97  case 7 => 0x98
      case 8 => 0x99  case 9 => 0x9a  case 10 => 0xa2  case 11 => 0xa3  case 12 => 0xa4  case 13 => 0xa5  case 14 => 0xa6  case _ => 0xa7)
    case 7 => (match lo
      case 0 => 0xa8  case 1 => 0xa9  case 2 => 0xaa  case 3 => 0xb2  case 4 => 0xb3  case 5 => 0xb4  case 6 => 0xb5  case 7 => 0xb6
      case 8 => 0xb7  case 9 => 0xb8  case 10 => 0xb9  case 11 => 0xba  case 12 => 0xc2  case 13 => 0xc3  case 14 => 0xc4  case _ => 0xc5)
    case 8 => (match lo
      case 0 => 0xc6  case 1 => 0xc7  case 2 => 0xc8  case 3 => 0xc9  case 4 => 0xca  case 5 => 0xd2  case 6 => 0xd3  case 7 => 0xd4
      case 8 => 0xd5  case 9 => 0xd6  case 10 => 0xd7  case 11 => 0xd8  case 12 => 0xd9  case 13 => 0xda  case 14 => 0xe1  case _ => 0xe2)
    case 9 => (match lo
      case 0 => 0xe3  case 1 => 0xe4  case 2 => 0xe5  case 3 => 0xe6  case 4 => 0xe7  case 5 => 0xe8  case 6 => 0xe9  case 7 => 0xea
      case 8 => 0xf1  case 9 => 0xf2  case 10 => 0xf3  case 11 => 0xf4  case 12 => 0xf5  case 13 => 0xf6  case 14 => 0xf7  case _ => 0xf8)
    case _ => (match lo
      case 0 => 0xf9  case _ => 0xfa)
  }

  /** Where symbol s stands in it. */
  function AcLumIndex(s: byte): nat {
    var hi, lo := s / 16, s % 16;
    match hi
    case 0 => (match lo
      case 0 => 3  case 1 => 0  case 2 => 1  case 3 => 2  case 4 => 4  case 5 => 6  case 6 => 11  case 7 => 15
      case 8 => 23  case 9 => 37  case _ => 38)
    case 1 => (match lo
      case 0 => 0  case 1 => 5  case 2 => 7  case 3 => 12  case 4 => 18  case 5 => 28  case 6 => 39  case 7 => 40
      case 8 => 41  case 9 => 42  case _ => 43)
    case 2 => (match lo
      case 0 => 0  case 1 => 8  case 2 => 16  case 3 => 24  case 4 => 32  case 5 => 44  case 6 => 45  case 7 => 46
      case 8 => 47  case 9 => 48  case _ => 49)
    case 3 => (match lo
      case 0 => 0  case 1 => 9  case 2 => 19  case 3 => 33  case 4 => 50  case 5 => 51  case 6 => 52  case 7 => 53
      case 8 => 54  case 9 => 55  case _ => 56)
    case 4 => (match lo
      case 0 => 0  case 1 => 10  case 2 => 25  case 3 => 57  case 4 => 58  case 5 => 59  case 6 => 60  case 7 => 61
      case 8 => 62  case 9 => 63  case _ => 64)
    case 5 => (match lo
      case 0 => 0  case 1 => 13  case 2 => 29  case 3 => 65  case 4 => 66  case 5 => 67  case 6 => 68  case 7 => 69
      case 8 => 70  case 9 => 71  case _ => 72)
    case 6 => (match lo
      case 0 => 0  case 1 => 14  case 2 => 34  case 3 => 73  case 4 => 74  case 5 => 75  case 6 => 76  case 7 => 77
      case 8 => 78  case 9 => 79  case _ => 80)
    case 7 => (match lo
      case 0 => 0  case 1 => 17  case 2 => 35  case 3 => 81  case 4 => 82  case 5 => 83  case 6 => 84  case 7 => 85
      case 8 => 86  case 9 => 87  case _ => 88)
    case 8 => (match lo
      case 0 => 0  case 1 => 20  case 2 => 36  case 3 => 89  case 4 => 90  case 5 => 91  case 6 => 92  case 7 => 93
      case 8 => 94  case 9 => 95  case _ => 96)
    case 9 => (match lo
      case 0 => 0  case 1 => 21  case 2 => 97  case 3 => 98  case 4 => 99  case 5 => 100  case 6 => 101  case 7 => 102
      case 8 => 103  case 9 => 104  case _ => 105)
    case 10 => (match lo
      case 0 => 0  case 1 => 22  case 2 => 106  case 3 => 107  case 4 => 108  case 5 => 109  case 6 => 110  case 7 => 111
      case 8 => 112  case 9 => 113  case _ => 114)
    case 11 => (match lo
      case 0 => 0  case 1 => 26  case 2 => 115  case 3 => 116  case 4 => 117  case 5 => 118  case 6 => 119  case 7 => 120
      case 8 => 121  case 9 => 122  case _ => 123)
    case 12 => (match lo
      case 0 => 0  case 1 => 27  case 2 => 124  case 3 => 125  case 4 => 126  case 5 => 127  case 6 => 128  case 7 => 129
      case 8 => 130  case 9 => 131  case _ => 132)
    case 13 => (match lo
      case 0 => 0  case 1 => 30  case 2 => 133  case 3 => 134  case 4 => 135  case 5 => 136  case 6 => 137  case 7 => 138
      case 8 => 139  case 9 => 140  case _ => 141)
    case 14 => (match lo
      case 0 => 0  case 1 => 142  case 2 => 143  case 3 => 144  case 4 => 145  case 5 => 146  case 6 => 147  case 7 => 148
      case 8 => 149  case 9 => 150  case _ => 151)
    case _ => (match lo
      case 0 => 31  case 1 => 152  case 2 => 153  case 3 => 154  case 4 => 155  case 5 => 156  case 6 => 157  case 7 => 158
      case 8 => 159  case 9 => 160  case _ => 161)
  }

  /** Symbol k of the chrominance AC table. */
  function AcChromVal(k: nat): byte {
    var hi, lo := k / 16, k % 16;
    match hi
    case 0 => (match lo
      case 0 => 0x00  case 1 => 0x01  case 2 => 0x02  case 3 => 0x03  case 4 => 0x11  case 5 => 0x04  case 6 => 0x05  case 7 => 0x21
      case 8 => 0x31  case 9 => 0x06  case 10 => 0x12  case 11 => 0x41  case 12 => 0x51  case 13 => 0x07  case 14 => 0x61  case _ => 0x71)
    case 1 => (match lo
      case 0 => 0x13  case 1 => 0x22  case 2 => 0x32  case 3 => 0x81  case 4 => 0x08  case 5 => 0x14  case 6 => 0x42  case 7 => 0x91
      case 8 => 0xa1  case 9 => 0xb1  case 10 => 0xc1  case 11 => 0x09  case 12 => 0x23  case 13 => 0x33  case 14 => 0x52  case _ => 0xf0)
    case 2 => (match lo
      case 0 => 0x15  case 1 => 0x62  case 2 => 0x72  case 3 => 0xd1  case 4 => 0x0a  case 5 => 0x16  case 6 => 0x24  case 7 => 0x34
      case 8 => 0xe1  case 9 => 0x25  case 10 => 0xf1  case 11 => 0x17  case 12 => 0x18  case 13 => 0x19  case 14 => 0x1a  case _ => 0x26)
    case 3 => (match lo
      case 0 => 0x27  case 1 => 0x28  case 2 => 0x29  case 3 => 0x2a  case 4 => 0x35  case 5 => 0x36  case 6 => 0x37  case 7 => 0x38
      case 8 => 0x39  case 9 => 0x3a  case 10 => 0x43  case 11 => 0x44  case 12 => 0x45  case 13 => 0x46  case 14 => 0x47  case _ => 0x48)
    case 4 => (match lo
      case 0 => 0x49  case 1 => 0x4a  case 2 => 0x53  case 3 => 0x54  case 4 => 0x55  case 5 => 0x56  case 6 => 0x57  case 7 => 0x58
      case 8 => 0x59  case 9 => 0x5a  case 10 => 0x63  case 11 => 0x64  case 12 => 0x65  case 13 => 0x66  case 14 => 0x67  case _ => 0x68)
    case 5 => (match lo
      case 0 => 0x69  case 1 => 0x6a  case 2 => 0x73  case 3 => 0x74  case 4 => 0x75  case 5 => 0x76  case 6 => 0x77  case 7 => 0x78
      case 8 => 0x79  case 9 => 0x7a  case 10 => 0x82  case 11 => 0x83  case 12 => 0x84  case 13 => 0x85  case 14 => 0x86  case _ => 0x87)
    case 6 => (match lo
      case 0 => 0x88  case 1 => 0x89  case 2 => 0x8a  case 3 => 0x92  case 4 => 0x93  case 5 => 0x94  case 6 => 0x95  case 7 => 0x96
      case 8 => 0x97  case 9 => 0x98  case 10 => 0x99  case 11 => 0x9a  case 12 => 0xa2  case 13 => 0xa3  case 14 => 0xa4  case _ => 0xa5)
    case 7 => (match lo
      case 0 => 0xa6  case 1 => 0xa7  case 2 => 0xa8  case 3 => 0xa9  case 4 => 0xaa  case 5 => 0xb2  case 6 => 0xb3  case 7 => 0xb4
      case 8 => 0xb5  case 9 => 0xb6  case 10 => 0xb7  case 11 => 0xb8  case 12 => 0xb9  case 13 => 0xba  case 14 => 0xc2  case _ => 0xc3)
    case 8 => (match lo
      case 0 => 0xc4  case 1 => 0xc5  case 2 => 0xc6  case 3 => 0xc7  case 4 => 0xc8  case 5 => 0xc9  case 6 => 0xca  case 7 => 0xd2
      case 8 => 0xd3  case 9 => 0xd4  case 10 => 0xd5  case 11 => 0xd6  case 12 => 0xd7  case 13 => 0xd8  case 14 => 0xd9  case _ => 0xda)
    case 9 => (match lo
      case 0 => 0xe2  case 1 => 0xe3  case 2 => 0xe4  case 3 => 0xe5  case 4 => 0xe6  case 5 => 0xe7  case 6 => 0xe8  case 7 => 0xe9
      case 8 => 0xea  case 9 => 0xf2  case 10 => 0xf3  case 11 => 0xf4  case 12 => 0xf5  case 13 => 0xf6  case 14 => 0xf7  case _ => 0xf8)
    case _ => (match lo
      case 0 => 0xf9  case _ => 0xfa)
  }

  /** Where symbol s stands in it. */
  function AcChromIndex(s: byte): nat {
    var hi, lo := s / 16, s % 16;
    match hi
    case 0 => (match lo
      case 0 => 0  case 1 => 1  case 2 => 2  case 3 => 3  case 4 => 5  case 5 => 6  case 6 => 9  case 7 => 13
      case 8 => 20  case 9 => 27  case _ => 36)
    case 1 => (match lo
      case 0 => 0  case 1 => 4  case 2 => 10  case 3 => 16  case 4 => 21  case 5 => 32  case 6 => 37  case 7 => 43
      case 8 => 44  case 9 => 45  case _ => 46)
    case 2 => (match lo
      case 0 => 0  case 1 => 7  case 2 => 17  case 3 => 28  case 4 => 38  case 5 => 41  case 6 => 47  case 7 => 48
      case 8 => 49  case 9 => 50  case _ => 51)
    case 3 => (match lo
      case 0 => 0  case 1 => 8  case 2 => 18  case 3 => 29  case 4 => 39  case 5 => 52  case 6 => 53  case 7 => 54
      case 8 => 55  case 9 => 56  case _ => 57)
    case 4 => (match lo
      case 0 => 0  case 1 => 11  case 2 => 22  case 3 => 58  case 4 => 59  case 5 => 60  case 6 => 61  case 7 => 62
      case 8 => 63  case 9 => 64  case _ => 65)
    case 5 => (match lo
      case 0 => 0  case 1 => 12  case 2 => 30  case 3 => 66  case 4 => 67  case 5 => 68  case 6 => 69  case 7 => 70
      case 8 => 71  case 9 => 72  case _ => 73)
    case 6 => (match lo
      case 0 => 0  case 1 => 14  case 2 => 33  case 3 => 74  case 4 => 75  case 5 => 76  case 6 => 77  case 7 => 78
      case 8 => 79  case 9 => 80  case _ => 81)
    case 7 => (match lo
      case 0 => 0  case 1 => 15  case 2 => 34  case 3 => 82  case 4 => 83  case 5 => 84  case 6 => 85  case 7 => 86
      case 8 => 87  case 9 => 88  case _ => 89)
    case 8 => (match lo
      case 0 => 0  case 1 => 19  case 2 => 90  case 3 => 91  case 4 => 92  case 5 => 93  case 6 => 94  case 7 => 95
      case 8 => 96  case 9 => 97  case _ => 98)
    case 9 => (match lo
      case 0 => 0  case 1 => 23  case 2 => 99  case 3 => 100  case 4 => 101  case 5 => 102  case 6 => 103  case 7 => 104
      case 8 => 105  case 9 => 106  case _ => 107)
    case 10 => (match lo
      case 0 => 0  case 1 => 24  case 2 => 108  case 3 => 109  case 4 => 110  case 5 => 111  case 6 => 112  case 7 => 113
      case 8 => 114  case 9 => 115  case _ => 116)
    case 11 => (match lo
      case 0 => 0  case 1 => 25  case 2 => 117  case 3 => 118  case 4 => 119  case 5 => 120  case 6 => 121  case 7 => 122
      case 8 => 123  case 9 => 124  case _ => 125)
    case 12 => (match lo
      case 0 => 0  case 1 => 26  case 2 => 126  case 3 => 127  case 4 => 128  case 5 => 129  case 6 => 130  case 7 => 131
      case 8 => 132  case 9 => 133  case _ => 134)
    case 13 => (match lo
      case 0 => 0  case 1 => 35  case 2 => 135  case 3 => 136  case 4 => 137  case 5 => 138  case 6 => 139  case 7 => 140
      case 8 => 141  case 9 => 142  case _ => 143)
    case 14 => (match lo
      case 0 => 0  case 1 => 40  case 2 => 144  case 3 => 145  case 4 => 146  case 5 => 147  case 6 => 148  case 7 => 149
      case 8 => 150  case 9 => 151  case _ => 152)
    case _ => (match lo
      case 0 => 31  case 1 => 42  case 2 => 153  case 3 => 154  case 4 => 155  case 5 => 156  case 6 => 157  case 7 => 158
      case 8 => 159  case 9 => 160  case _ => 161)
  }

  lemma AcLumIndexLow(k: nat)
    requires 0 <= k < 54
    ensures AcLumIndex(AcLumVal(k)) == k
  {
  }

  lemma AcLumIndexMid(k: nat)
    requires 54 <= k < 108
    ensures AcLumIndex(AcLumVal(k)) == k
  {
  }

  lemma AcLumIndexHigh(k: nat)
    requires 108 <= k < 162
    ensures AcLumIndex(AcLumVal(k)) == k
  {
  }

  lemma AcLumSymbolLow(s: byte)
    requires 0 <= s < 80 && NeededAc(s)
    ensures AcLumIndex(s) < 162 && AcLumVal(AcLumIndex(s)) == s
  {
  }

  lemma AcLumSymbolMid(s: byte)
    requires 80 <= s < 160 && NeededAc(s)
    ensures AcLumIndex(s) < 162 && AcLumVal(AcLumIndex(s)) == s
  {
  }

  lemma AcLumSymbolHigh(s: byte)
    requires 160 <= s < 256 && NeededAc(s)
    ensures AcLumIndex(s) < 162 && AcLumVal(AcLumIndex(s)) == s
  {
  }

  lemma AcLumTable()
    ensures AcLum().Valid() && Distinct(AcLum()) && forall s: byte :: NeededAc(s) ==> Has(AcLum(), s)
  {
    AcLumCounts();
    forall i, j | 0 <= i < j < 162
      ensures AcLumVal(i) != AcLumVal(j)
    {
      if i < 54 { AcLumIndexLow(i); } else if i < 108 { AcLumIndexMid(i); } else { AcLumIndexHigh(i); }
      if j < 54 { AcLumIndexLow(j); } else if j < 108 { AcLumIndexMid(j); } else { AcLumIndexHigh(j); }
    }
    forall s: byte | NeededAc(s)
      ensures Has(AcLum(), s)
    {
      if s < 80 { AcLumSymbolLow(s); } else if s < 160 { AcLumSymbolMid(s); } else { AcLumSymbolHigh(s); }
      assert AcLum().vals[AcLumIndex(s)] == s;
    }
  }

  lemma AcChromIndexLow(k: nat)
    requires 0 <= k < 54
    ensures AcChromIndex(AcChromVal(k)) == k
  {
  }

  lemma AcChromIndexMid(k: nat)
    requires 54 <= k < 108
    ensures AcChromIndex(AcChromVal(k)) == k
  {
  }

  lemma AcChromIndexHigh(k: nat)
    requires 108 <= k < 162
    ensures AcChromIndex(AcChromVal(k)) == k
  {
  }

  lemma AcChromSymbolLow(s: byte)
    requires 0 <= s < 80 && NeededAc(s)
    ensures AcChromIndex(s) < 162 && AcChromVal(AcChromIndex(s)) == s
  {
  }

  lemma AcChromSymbolMid(s: byte)
    requires 80 <= s < 160 && NeededAc(s)
    ensures AcChromIndex(s) < 162 && AcChromVal(AcChromIndex(s)) == s
  {
  }

  lemma AcChromSymbolHigh(s: byte)
    requires 160 <= s < 256 && NeededAc(s)
    ensures AcChromIndex(s) < 162 && AcChromVal(AcChromIndex(s)) == s
  {
  }

  lemma AcChromTable()
    ensures AcChrom().Valid() && Distinct(AcChrom()) && forall s: byte :: NeededAc(s) ==> Has(AcChrom(), s)
  {
    AcChromCounts();
    forall i, j | 0 <= i < j < 162
      ensures AcChromVal(i) != AcChromVal(j)
    {
      if i < 54 { AcChromIndexLow(i); } else if i < 108 { AcChromIndexMid(i); } else { AcChromIndexHigh(i); }
      if j < 54 { AcChromIndexLow(j); } else if j < 108 { AcChromIndexMid(j); } else { AcChromIndexHigh(j); }
    }
    forall s: byte | NeededAc(s)
      ensures Has(AcChrom(), s)
    {
      if s < 80 { AcChromSymbolLow(s); } else if s < 160 { AcChromSymbolMid(s); } else { AcChromSymbolHigh(s); }
      assert AcChrom().vals[AcChromIndex(s)] == s;
    }
  }

  lemma DcLumCounts()
    ensures DcLum().Valid() && Total(DcLum().counts) == 12 && Kraft(DcLum().counts)
  {
    hide Pow2;
    var c := DcLum().counts;
    assert FirstIndex(c, 4) == 6 && FirstCode(c, 4) == 14;
    assert FirstIndex(c, 8) == 10 && FirstCode(c, 8) == 254;
    assert FirstIndex(c, 12) == 12 && FirstCode(c, 12) == 4088;
    assert FirstIndex(c, 16) == 12 && FirstCode(c, 16) == 65408;
    Pow2Values();
  }

  lemma DcChromCounts()
    ensures DcChrom().Valid() && Total(DcChrom().counts) == 12 && Kraft(DcChrom().counts)
  {
    hide Pow2;
    var c := DcChrom().counts;
    assert FirstIndex(c, 4) == 4 && FirstCode(c, 4) == 14;
    assert FirstIndex(c, 8) == 8 && FirstCode(c, 8) == 254;
    assert FirstIndex(c, 12) == 12 && FirstCode(c, 12) == 4094;
    assert FirstIndex(c, 16) == 12 && FirstCode(c, 16) == 65504;
    Pow2Values();
  }

  lemma AcLumCounts()
    ensures AcLum().Valid() && Total(AcLum().counts) == 162 && Kraft(AcLum().counts)
  {
    hide AcLumVal, Pow2;
    var c := AcLum().counts;
    assert FirstIndex(c, 4) == 3 && FirstCode(c, 4) == 10;
    assert FirstIndex(c, 8) == 15 && FirstCode(c, 8) == 248;
    assert FirstIndex(c, 12) == 32 && FirstCode(c, 12) == 4084;
    assert FirstIndex(c, 16) == 37 && FirstCode(c, 16) == 65410;
    Pow2Values();
  }

  lemma AcChromCounts()
    ensures AcChrom().Valid() && Total(AcChrom().counts) == 162 && Kraft(AcChrom().counts)
  {
    hide AcChromVal, Pow2;
    var c := AcChrom().counts;
    assert FirstIndex(c, 4) == 3 && FirstCode(c, 4) == 10;
    assert FirstIndex(c, 8) == 16 && FirstCode(c, 8) == 246;
    assert FirstIndex(c, 12) == 36 && FirstCode(c, 12) == 4084;
    assert FirstIndex(c, 16) == 43 && FirstCode(c, 16) == 65416;
    Pow2Values();
  }

  lemma HasDc(t: Table)
    requires t.Valid() && t.vals == DcVals() && Total(t.counts) == 12
    ensures Distinct(t) && forall n: byte :: n <= 11 ==> Has(t, n)
  {
    forall n: byte | n <= 11
      ensures Has(t, n)
    {
      assert t.vals[n] == n;
    }
  }

  lemma DcLumTable()
    ensures DcLum().Valid() && Kraft(DcLum().counts) && Distinct(DcLum()) && forall n: byte :: n <= 11 ==> Has(DcLum(), n)
  {
    hide FirstIndex, Kraft;
    DcLumCounts();
    HasDc(DcLum());
  }

  lemma DcChromTable()
    ensures DcChrom().Valid() && Kraft(DcChrom().counts) && Distinct(DcChrom()) && forall n: byte :: n <= 11 ==> Has(DcChrom(), n)
  {
    hide FirstIndex, Kraft;
    DcChromCounts();
    HasDc(DcChrom());
  }

  /** These are the standard tables, with code books that cover what baseline coding needs. */
  ghost predicate Standard(cs: Coders) {
    cs.Valid() && cs.Good() &&
    cs.luma.dcT == DcLum() && cs.luma.acT == AcLum() && cs.chroma.dcT == DcChrom() && cs.chroma.acT == AcChrom()
  }

  /** The four code books enc_init fills. */
  method StandardCoders() returns (cs: Coders)
    ensures Standard(cs)
  {
    hide FirstCode, FirstIndex, Kraft, DcVals, AcLumVal, AcChromVal, AcLumIndex, AcChromIndex, DcLum, DcChrom, AcLum, AcChrom, Distinct, Has;
    DcLumTable();
    DcChromTable();
    AcLumCounts();
    AcChromCounts();
    AcLumTable();
    AcChromTable();
    var dcLum := HuffCodes(DcLum());
    var acLum := HuffCodes(AcLum());
    var dcChrom := HuffCodes(DcChrom());
    var acChrom := HuffCodes(AcChrom());
    cs := Coders(Coder(DcLum(), dcLum, AcLum(), acLum), Coder(DcChrom(), dcChrom, AcChrom(), acChrom));
  }
}
