/** The table-driven CRC-32 of crc32.c against its bit-at-a-time definition (section 8 of RFC 1952). */
module Crc32 {
  // ---- The definition: bits are worked off one at a time, the low bit of each byte first.

  /** Shift right and, if a one falls out, add the polynomial. */
  function Bit(c: bv32): bv32 {
    if c & 1 == 1 then (c >> 1) ^ 0xEDB88320 else c >> 1
  }

  function Eight(c: bv32): bv32 {
    Bit(Bit(Bit(Bit(Bit(Bit(Bit(Bit(c))))))))
  }

  function FeedByte(c: bv32, b: bv8): bv32 {
    Eight(c ^ (b as bv32))
  }

  function Feed(c: bv32, buf: seq<bv8>): bv32
    decreases |buf|
  {
    if buf == [] then c else Feed(FeedByte(c, buf[0]), buf[1..])
  }

  function Not(x: bv32): bv32 { x ^ 0xFFFFFFFF }

  /** The CRC of a message that continues one whose CRC is crc (0 to start). */
  function Crc(crc: bv32, buf: seq<bv8>): bv32 {
    Not(Feed(Not(crc), buf))
  }

  // ---- The table.

  /** crc32_tab, sixteen entries to a row. */
  function Row(h: bv8): (r: seq<bv32>)
    ensures |r| == 16
  {
    match h
    case 0 => [0x00000000, 0x77073096, 0xee0e612c, 0x990951ba, 0x076dc419, 0x706af48f, 0xe963a535, 0x9e6495a3,
      0x0edb8832, 0x79dcb8a4, 0xe0d5e91e, 0x97d2d988, 0x09b64c2b, 0x7eb17cbd, 0xe7b82d07, 0x90bf1d91]
    case 1 => [0x1db71064, 0x6ab020f2, 0xf3b97148, 0x84be41de, 0x1adad47d, 0x6ddde4eb, 0xf4d4b551, 0x83d385c7,
      0x136c9856, 0x646ba8c0, 0xfd62f97a, 0x8a65c9ec, 0x14015c4f, 0x63066cd9, 0xfa0f3d63, 0x8d080df5]
    case 2 => [0x3b6e20c8, 0x4c69105e, 0xd56041e4, 0xa2677172, 0x3c03e4d1, 0x4b04d447, 0xd20d85fd, 0xa50ab56b,
      0x35b5a8fa, 0x42b2986c, 0xdbbbc9d6, 0xacbcf940, 0x32d86ce3, 0x45df5c75, 0xdcd60dcf, 0xabd13d59]
    case 3 => [0x26d930ac, 0x51de003a, 0xc8d75180, 0xbfd06116, 0x21b4f4b5, 0x56b3c423, 0xcfba9599, 0xb8bda50f,
      0x2802b89e, 0x5f058808, 0xc60cd9b2, 0xb10be924, 0x2f6f7c87, 0x58684c11, 0xc1611dab, 0xb6662d3d]
    case 4 => [0x76dc4190, 0x01db7106, 0x98d220bc, 0xefd5102a, 0x71b18589, 0x06b6b51f, 0x9fbfe4a5, 0xe8b8d433,
      0x7807c9a2, 0x0f00f934, 0x9609a88e, 0xe10e9818, 0x7f6a0dbb, 0x086d3d2d, 0x91646c97, 0xe6635c01]
    case 5 => [0x6b6b51f4, 0x1c6c6162, 0x856530d8, 0xf262004e, 0x6c0695ed, 0x1b01a57b, 0x8208f4c1, 0xf50fc457,
      0x65b0d9c6, 0x12b7e950, 0x8bbeb8ea, 0xfcb9887c, 0x62dd1ddf, 0x15da2d49, 0x8cd37cf3, 0xfbd44c65]
    case 6 => [0x4db26158, 0x3ab551ce, 0xa3bc0074, 0xd4bb30e2, 0x4adfa541, 0x3dd895d7, 0xa4d1c46d, 0xd3d6f4fb,
      0x4369e96a, 0x346ed9fc, 0xad678846, 0xda60b8d0, 0x44042d73, 0x33031de5, 0xaa0a4c5f, 0xdd0d7cc9]
    case 7 => [0x5005713c, 0x270241aa, 0xbe0b1010, 0xc90c2086, 0x5768b525, 0x206f85b3, 0xb966d409, 0xce61e49f,
      0x5edef90e, 0x29d9c998, 0xb0d09822, 0xc7d7a8b4, 0x59b33d17, 0x2eb40d81, 0xb7bd5c3b, 0xc0ba6cad]
    case 8 => [0xedb88320, 0x9abfb3b6, 0x03b6e20c, 0x74b1d29a, 0xead54739, 0x9dd277af, 0x04db2615, 0x73dc1683,
      0xe3630b12, 0x94643b84, 0x0d6d6a3e, 0x7a6a5aa8, 0xe40ecf0b, 0x9309ff9d, 0x0a00ae27, 0x7d079eb1]
    case 9 => [0xf00f9344, 0x8708a3d2, 0x1e01f268, 0x6906c2fe, 0xf762575d, 0x806567cb, 0x196c3671, 0x6e6b06e7,
      0xfed41b76, 0x89d32be0, 0x10da7a5a, 0x67dd4acc, 0xf9b9df6f, 0x8ebeeff9, 0x17b7be43, 0x60b08ed5]
    case 10 => [0xd6d6a3e8, 0xa1d1937e, 0x38d8c2c4, 0x4fdff252, 0xd1bb67f1, 0xa6bc5767, 0x3fb506dd, 0x48b2364b,
      0xd80d2bda, 0xaf0a1b4c, 0x36034af6, 0x41047a60, 0xdf60efc3, 0xa867df55, 0x316e8eef, 0x4669be79]
    case 11 => [0xcb61b38c, 0xbc66831a, 0x256fd2a0, 0x5268e236, 0xcc0c7795, 0xbb0b4703, 0x220216b9, 0x5505262f,
      0xc5ba3bbe, 0xb2bd0b28, 0x2bb45a92, 0x5cb36a04, 0xc2d7ffa7, 0xb5d0cf31, 0x2cd99e8b, 0x5bdeae1d]
    case 12 => [0x9b64c2b0, 0xec63f226, 0x756aa39c, 0x026d930a, 0x9c0906a9, 0xeb0e363f, 0x72076785, 0x05005713,
      0x95bf4a82, 0xe2b87a14, 0x7bb12bae, 0x0cb61b38, 0x92d28e9b, 0xe5d5be0d, 0x7cdcefb7, 0x0bdbdf21]
    case 13 => [0x86d3d2d4, 0xf1d4e242, 0x68ddb3f8, 0x1fda836e, 0x81be16cd, 0xf6b9265b, 0x6fb077e1, 0x18b74777,
      0x88085ae6, 0xff0f6a70, 0x66063bca, 0x11010b5c, 0x8f659eff, 0xf862ae69, 0x616bffd3, 0x166ccf45]
    case 14 => [0xa00ae278, 0xd70dd2ee, 0x4e048354, 0x3903b3c2, 0xa7672661, 0xd06016f7, 0x4969474d, 0x3e6e77db,
      0xaed16a4a, 0xd9d65adc, 0x40df0b66, 0x37d83bf0, 0xa9bcae53, 0xdebb9ec5, 0x47b2cf7f, 0x30b5ffe9]
    case _ => [0xbdbdf21c, 0xcabac28a, 0x53b39330, 0x24b4a3a6, 0xbad03605, 0xcdd70693, 0x54de5729, 0x23d967bf,
      0xb3667a2e, 0xc4614ab8, 0x5d681b02, 0x2a6f2b94, 0xb40bbe37, 0xc30c8ea1, 0x5a05df1b, 0x2d02ef8d]
  }

  function Tab(i: bv8): bv32 {
    Row(i >> 4)[(i & 15) as nat]
  }

  // With the low byte known, the high bits just move down while it is worked off.

  lemma Row0(x: bv32, i: bv8)
    requires i as bv32 == x & 0xFF && i >> 4 == 0
    ensures Tab(i) ^ (x >> 8) == Eight(x)
  {
    match i {
      case 0 => case 1 => case 2 => case 3 => case 4 => case 5 => case 6 => case 7 =>
      case 8 => case 9 => case 10 => case 11 => case 12 => case 13 => case 14 => case _ =>
    }
  }

  lemma Row1(x: bv32, i: bv8)
    requires i as bv32 == x & 0xFF && i >> 4 == 1
    ensures Tab(i) ^ (x >> 8) == Eight(x)
  {
    match i {
      case 16 => case 17 => case 18 => case 19 => case 20 => case 21 => case 22 => case 23 =>
      case 24 => case 25 => case 26 => case 27 => case 28 => case 29 => case 30 => case _ =>
    }
  }

  lemma Row2(x: bv32, i: bv8)
    requires i as bv32 == x & 0xFF && i >> 4 == 2
    ensures Tab(i) ^ (x >> 8) == Eight(x)
  {
    match i {
      case 32 => case 33 => case 34 => case 35 => case 36 => case 37 => case 38 => case 39 =>
      case 40 => case 41 => case 42 => case 43 => case 44 => case 45 => case 46 => case _ =>
    }
  }

  lemma Row3(x: bv32, i: bv8)
    requires i as bv32 == x & 0xFF && i >> 4 == 3
    ensures Tab(i) ^ (x >> 8) == Eight(x)
  {
    match i {
      case 48 => case 49 => case 50 => case 51 => case 52 => case 53 => case 54 => case 55 =>
      case 56 => case 57 => case 58 => case 59 => case 60 => case 61 => case 62 => case _ =>
    }
  }

  lemma Row4(x: bv32, i: bv8)
    requires i as bv32 == x & 0xFF && i >> 4 == 4
    ensures Tab(i) ^ (x >> 8) == Eight(x)
  {
    match i {
      case 64 => case 65 => case 66 => case 67 => case 68 => case 69 => case 70 => case 71 =>
      case 72 => case 73 => case 74 => case 75 => case 76 => case 77 => case 78 => case _ =>
    }
  }

  lemma Row5(x: bv32, i: bv8)
    requires i as bv32 == x & 0xFF && i >> 4 == 5
    ensures Tab(i) ^ (x >> 8) == Eight(x)
  {
    match i {
      case 80 => case 81 => case 82 => case 83 => case 84 => case 85 => case 86 => case 87 =>
      case 88 => case 89 => case 90 => case 91 => case 92 => case 93 => case 94 => case _ =>
    }
  }

  lemma Row6(x: bv32, i: bv8)
    requires i as bv32 == x & 0xFF && i >> 4 == 6
    ensures Tab(i) ^ (x >> 8) == Eight(x)
  {
    match i {
      case 96 => case 97 => case 98 => case 99 => case 100 => case 101 => case 102 => case 103 =>
      case 104 => case 105 => case 106 => case 107 => case 108 => case 109 => case 110 => case _ =>
    }
  }

  lemma Row7(x: bv32, i: bv8)
    requires i as bv32 == x & 0xFF && i >> 4 == 7
    ensures Tab(i) ^ (x >> 8) == Eight(x)
  {
    match i {
      case 112 => case 113 => case 114 => case 115 => case 116 => case 117 => case 118 => case 119 =>
      case 120 => case 121 => case 122 => case 123 => case 124 => case 125 => case 126 => case _ =>
    }
  }

  lemma Row8(x: bv32, i: bv8)
    requires i as bv32 == x & 0xFF && i >> 4 == 8
    ensures Tab(i) ^ (x >> 8) == Eight(x)
  {
    match i {
      case 128 => case 129 => case 130 => case 131 => case 132 => case 133 => case 134 => case 135 =>
      case 136 => case 137 => case 138 => case 139 => case 140 => case 141 => case 142 => case _ =>
    }
  }

  lemma Row9(x: bv32, i: bv8)
    requires i as bv32 == x & 0xFF && i >> 4 == 9
    ensures Tab(i) ^ (x >> 8) == Eight(x)
  {
    match i {
      case 144 => case 145 => case 146 => case 147 => case 148 => case 149 => case 150 => case 151 =>
      case 152 => case 153 => case 154 => case 155 => case 156 => case 157 => case 158 => case _ =>
    }
  }

  lemma Row10(x: bv32, i: bv8)
    requires i as bv32 == x & 0xFF && i >> 4 == 10
    ensures Tab(i) ^ (x >> 8) == Eight(x)
  {
    match i {
      case 160 => case 161 => case 162 => case 163 => case 164 => case 165 => case 166 => case 167 =>
      case 168 => case 169 => case 170 => case 171 => case 172 => case 173 => case 174 => case _ =>
    }
  }

  lemma Row11(x: bv32, i: bv8)
    requires i as bv32 == x & 0xFF && i >> 4 == 11
    ensures Tab(i) ^ (x >> 8) == Eight(x)
  {
    match i {
      case 176 => case 177 => case 178 => case 179 => case 180 => case 181 => case 182 => case 183 =>
      case 184 => case 185 => case 186 => case 187 => case 188 => case 189 => case 190 => case _ =>
    }
  }

  lemma Row12(x: bv32, i: bv8)
    requires i as bv32 == x & 0xFF && i >> 4 == 12
    ensures Tab(i) ^ (x >> 8) == Eight(x)
  {
    match i {
      case 192 => case 193 => case 194 => case 195 => case 196 => case 197 => case 198 => case 199 =>
      case 200 => case 201 => case 202 => case 203 => case 204 => case 205 => case 206 => case _ =>
    }
  }

  lemma Row13(x: bv32, i: bv8)
    requires i as bv32 == x & 0xFF && i >> 4 == 13
    ensures Tab(i) ^ (x >> 8) == Eight(x)
  {
    match i {
      case 208 => case 209 => case 210 => case 211 => case 212 => case 213 => case 214 => case 215 =>
      case 216 => case 217 => case 218 => case 219 => case 220 => case 221 => case 222 => case _ =>
    }
  }

  lemma Row14(x: bv32, i: bv8)
    requires i as bv32 == x & 0xFF && i >> 4 == 14
    ensures Tab(i) ^ (x >> 8) == Eight(x)
  {
    match i {
      case 224 => case 225 => case 226 => case 227 => case 228 => case 229 => case 230 => case 231 =>
      case 232 => case 233 => case 234 => case 235 => case 236 => case 237 => case 238 => case _ =>
    }
  }

  lemma Row15(x: bv32, i: bv8)
    requires i as bv32 == x & 0xFF && i >> 4 == 15
    ensures Tab(i) ^ (x >> 8) == Eight(x)
  {
    match i {
      case 240 => case 241 => case 242 => case 243 => case 244 => case 245 => case 246 => case 247 =>
      case 248 => case 249 => case 250 => case 251 => case 252 => case 253 => case 254 => case _ =>
    }
  }

  lemma TabStep(x: bv32, i: bv8)
    requires i as bv32 == x & 0xFF
    ensures Tab(i) ^ (x >> 8) == Eight(x)
  {
    hide Tab, Eight;
    match i >> 4 {
      case 0 => Row0(x, i);
      case 1 => Row1(x, i);
      case 2 => Row2(x, i);
      case 3 => Row3(x, i);
      case 4 => Row4(x, i);
      case 5 => Row5(x, i);
      case 6 => Row6(x, i);
      case 7 => Row7(x, i);
      case 8 => Row8(x, i);
      case 9 => Row9(x, i);
      case 10 => Row10(x, i);
      case 11 => Row11(x, i);
      case 12 => Row12(x, i);
      case 13 => Row13(x, i);
      case 14 => Row14(x, i);
      case _ => Row15(x, i);
    }
  }

  /** The loop body of crc32. */
  function Step(c: bv32, b: bv8): bv32 {
    Tab(((c ^ (b as bv32)) & 0xFF) as bv8) ^ (c >> 8)
  }

  /** One table look-up does the work of eight bits. */
  lemma StepIs(c: bv32, b: bv8)
    ensures Step(c, b) == FeedByte(c, b)
  {
    hide Tab, Eight;
    ShiftAway(c, b);
    ByteBack(c ^ (b as bv32));
    TabStep(c ^ (b as bv32), ((c ^ (b as bv32)) & 0xFF) as bv8);
  }

  lemma ByteBack(x: bv32)
    ensures ((x & 0xFF) as bv8) as bv32 == x & 0xFF
  {
  }

  lemma ShiftAway(c: bv32, b: bv8)
    ensures (c ^ (b as bv32)) >> 8 == c >> 8
  {
  }

  // ---- crc32

  method Compute(crc: bv32, buf: seq<bv8>) returns (r: bv32)
    ensures r == Crc(crc, buf)
  {
    hide FeedByte, Not, Step;
    var c := Not(crc);
    var i := 0;
    while i < |buf|
      invariant 0 <= i <= |buf|
      invariant Feed(Not(crc), buf) == Feed(c, buf[i..])
    {
      StepIs(c, buf[i]);
      assert buf[i..][1..] == buf[i + 1..];
      c := Step(c, buf[i]);
      i := i + 1;
    }
    return Not(c);
  }

  lemma NotNot(x: bv32)
    ensures Not(Not(x)) == x
  {
  }

  lemma {:induction false} FeedAppend(c: bv32, a: seq<bv8>, b: seq<bv8>)
    ensures Feed(c, a + b) == Feed(Feed(c, a), b)
    decreases |a|
  {
    hide FeedByte;
    if a == [] {
      assert a + b == b;
    } else {
      assert (a + b)[1..] == a[1..] + b;
      FeedAppend(FeedByte(c, a[0]), a[1..], b);
    }
  }

  /** The CRC of a message can be computed piece by piece. */
  lemma Chaining(crc: bv32, a: seq<bv8>, b: seq<bv8>)
    ensures Crc(Crc(crc, a), b) == Crc(crc, a + b)
  {
    hide Feed, Not;
    FeedAppend(Not(crc), a, b);
    NotNot(Feed(Not(crc), a));
  }

  /** The polynomial's top bit tells whether it was added, so a step can be undone. */
  function BitBack(r: bv32): bv32 {
    if r & 0x80000000 != 0 then ((r ^ 0xEDB88320) << 1) | 1 else r << 1
  }

  lemma BitUndone(c: bv32)
    ensures BitBack(Bit(c)) == c
  {
  }

  function EightBack(r: bv32): bv32 {
    BitBack(BitBack(BitBack(BitBack(BitBack(BitBack(BitBack(BitBack(r))))))))
  }

  lemma EightUndone(c: bv32)
    ensures EightBack(Eight(c)) == c
  {
    hide Bit, BitBack;
    var c1 := Bit(c);
    var c2 := Bit(c1);
    var c3 := Bit(c2);
    var c4 := Bit(c3);
    var c5 := Bit(c4);
    var c6 := Bit(c5);
    var c7 := Bit(c6);
    BitUndone(c7);
    BitUndone(c6);
    BitUndone(c5);
    BitUndone(c4);
    BitUndone(c3);
    BitUndone(c2);
    BitUndone(c1);
    BitUndone(c);
  }

  lemma XorUndone(c: bv32, b: bv32)
    ensures (c ^ b) ^ b == c && c ^ (c ^ b) == b
  {
  }

  lemma ByteUndone(b: bv8)
    ensures (b as bv32) as bv8 == b
  {
  }

  /** Different states, or different bytes, lead to different states. */
  lemma FeedByteInjective(c: bv32, d: bv32, b: bv8)
    requires c != d
    ensures FeedByte(c, b) != FeedByte(d, b)
  {
    hide Eight, EightBack;
    EightUndone(c ^ (b as bv32));
    EightUndone(d ^ (b as bv32));
    XorUndone(c, b as bv32);
    XorUndone(d, b as bv32);
  }

  lemma FeedByteDiffers(c: bv32, x: bv8, y: bv8)
    requires x != y
    ensures FeedByte(c, x) != FeedByte(c, y)
  {
    hide Eight, EightBack;
    EightUndone(c ^ (x as bv32));
    EightUndone(c ^ (y as bv32));
    XorUndone(c, x as bv32);
    XorUndone(c, y as bv32);
    ByteUndone(x);
    ByteUndone(y);
  }

  lemma {:induction false} FeedInjective(c: bv32, d: bv32, buf: seq<bv8>)
    requires c != d
    ensures Feed(c, buf) != Feed(d, buf)
    decreases |buf|
  {
    hide FeedByte;
    if buf != [] {
      FeedByteInjective(c, d, buf[0]);
      FeedInjective(FeedByte(c, buf[0]), FeedByte(d, buf[0]), buf[1..]);
    }
  }

  /** Changing any one byte of a message changes its CRC. */
  lemma OneByteDetected(crc: bv32, pre: seq<bv8>, x: bv8, y: bv8, post: seq<bv8>)
    requires x != y
    ensures Crc(crc, pre + [x] + post) != Crc(crc, pre + [y] + post)
  {
    hide Feed, FeedByte, Not;
    var c := Feed(Not(crc), pre);
    Around(crc, pre, x, post);
    Around(crc, pre, y, post);
    FeedByteDiffers(c, x, y);
    FeedInjective(FeedByte(c, x), FeedByte(c, y), post);
    NotNot(Feed(FeedByte(c, x), post));
    NotNot(Feed(FeedByte(c, y), post));
  }

  lemma {:induction false} Around(crc: bv32, pre: seq<bv8>, x: bv8, post: seq<bv8>)
    ensures Crc(crc, pre + [x] + post) == Not(Feed(FeedByte(Feed(Not(crc), pre), x), post))
  {
    hide FeedByte, Not;
    FeedAppend(Not(crc), pre + [x], post);
    FeedAppend(Not(crc), pre, [x]);
  }

  // ---- What the complements before and after are for.

  /** Zero bytes in front of a message are noticed. */
  lemma LeadingZeroDetected(m: seq<bv8>)
    ensures Crc(0, [0] + m) != Crc(0, m)
  {
    hide FeedByte;
    assert ([0] + m)[1..] == m;
    var c := FeedByte(Not(0), 0);
    ZeroMoves();
    FeedInjective(c, Not(0), m);
    hide Feed;
    NotNot(Feed(c, m));
    NotNot(Feed(Not(0), m));
    hide Not;
  }

  lemma ZeroMoves()
    ensures FeedByte(Not(0), 0) == 0x2DFD1072 != Not(0)
  {
    StepIs(Not(0), 0);
    hide Eight;
    assert Not(0) ^ 0 == 0xFFFFFFFF;
  }

  /** The bytes of a word, low byte first. */
  function Bytes(w: bv32): seq<bv8> {
    [(w & 0xFF) as bv8, ((w >> 8) & 0xFF) as bv8, ((w >> 16) & 0xFF) as bv8, ((w >> 24) & 0xFF) as bv8]
  }

  /** A message followed by its CRC, low byte first, has always the same CRC. */
  lemma Residue(m: seq<bv8>)
    ensures Crc(0, m + Bytes(Crc(0, m))) == 0x2144DF1C
  {
    hide FeedByte, Bytes;
    var c := Feed(Not(0), m);
    FeedAppend(Not(0), m, Bytes(Not(c)));
    hide Feed;
    FeedComplement(c);
    assert Not(0xDEBB20E3) == 0x2144DF1C;
    hide Not;
  }

  /** A byte of the complement cancels what is left of the state, so only constants remain. */
  lemma {:induction false} FeedComplement(c: bv32)
    ensures Feed(c, Bytes(Not(c))) == 0xDEBB20E3
  {
    hide FeedByte, Not, Feed;
    var b := Bytes(Not(c));
    FeedFour(c, b[0], b[1], b[2], b[3]);
    FirstByte(c);
    SecondByte(c);
    ThirdByte(c);
    FourthByte(c);
  }

  lemma {:induction false} FeedFour(c: bv32, b0: bv8, b1: bv8, b2: bv8, b3: bv8)
    ensures Feed(c, [b0, b1, b2, b3]) == FeedByte(FeedByte(FeedByte(FeedByte(c, b0), b1), b2), b3)
  {
    hide FeedByte;
    var c1 := FeedByte(c, b0);
    var c2 := FeedByte(c1, b1);
    var c3 := FeedByte(c2, b2);
    assert [b0, b1, b2, b3][1..] == [b1, b2, b3] && [b1, b2, b3][1..] == [b2, b3] && [b2, b3][1..] == [b3];
    assert Feed(c, [b0, b1, b2, b3]) == Feed(c1, [b1, b2, b3]);
    assert Feed(c1, [b1, b2, b3]) == Feed(c2, [b2, b3]);
    assert Feed(c2, [b2, b3]) == Feed(c3, [b3]);
    assert Feed(c3, [b3]) == Feed(FeedByte(c3, b3), []);
  }

  /** A look-up at a known index. */
  lemma LookUp(x: bv32, b: bv8, i: bv8)
    requires (x ^ (b as bv32)) & 0xFF == i as bv32
    ensures FeedByte(x, b) == Tab(i) ^ (x >> 8)
  {
    hide Tab, FeedByte;
    StepIs(x, b);
    ByteUndone(i);
  }

  lemma FirstByte(c: bv32)
    ensures FeedByte(c, Bytes(Not(c))[0]) == 0x2D02EF8D ^ (c >> 8)
  {
    hide FeedByte;
    var b := Bytes(Not(c))[0];
    ByteBack(Not(c));
    LookUp(c, b, 0xFF);
  }

  lemma SecondByte(c: bv32)
    ensures FeedByte(0x2D02EF8D ^ (c >> 8), Bytes(Not(c))[1]) == 0xBE2612FF ^ (c >> 16)
  {
    hide FeedByte;
    var b := Bytes(Not(c))[1];
    ByteBack(Not(c) >> 8);
    LookUp(0x2D02EF8D ^ (c >> 8), b, 0x72);
  }

  lemma ThirdByte(c: bv32)
    ensures FeedByte(0xBE2612FF ^ (c >> 16), Bytes(Not(c))[2]) == 0x00BE2612 ^ (c >> 24)
  {
    hide FeedByte;
    var b := Bytes(Not(c))[2];
    ByteBack(Not(c) >> 16);
    LookUp(0xBE2612FF ^ (c >> 16), b, 0);
  }

  lemma FourthByte(c: bv32)
    ensures FeedByte(0x00BE2612 ^ (c >> 24), Bytes(Not(c))[3]) == 0xDEBB20E3
  {
    hide FeedByte;
    var b := Bytes(Not(c))[3];
    ByteBack(Not(c) >> 24);
    LookUp(0x00BE2612 ^ (c >> 24), b, 0xED);
  }
}
