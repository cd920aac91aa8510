/** The constants of the CRC-32 table, each shown to be what eight single-bit shifts make of its index. */
module Crc32Table {
  import opened BitWords

  const ROW_0: seq<bv32> := [
    0x00000000, 0x77073096, 0xee0e612c, 0x990951ba, 0x076dc419, 0x706af48f, 0xe963a535, 0x9e6495a3,
    0x0edb8832, 0x79dcb8a4, 0xe0d5e91e, 0x97d2d988, 0x09b64c2b, 0x7eb17cbd, 0xe7b82d07, 0x90bf1d91]

  const ROW_1: seq<bv32> := [
    0x1db71064, 0x6ab020f2, 0xf3b97148, 0x84be41de, 0x1adad47d, 0x6ddde4eb, 0xf4d4b551, 0x83d385c7,
    0x136c9856, 0x646ba8c0, 0xfd62f97a, 0x8a65c9ec, 0x14015c4f, 0x63066cd9, 0xfa0f3d63, 0x8d080df5]

  const ROW_2: seq<bv32> := [
    0x3b6e20c8, 0x4c69105e, 0xd56041e4, 0xa2677172, 0x3c03e4d1, 0x4b04d447, 0xd20d85fd, 0xa50ab56b,
    0x35b5a8fa, 0x42b2986c, 0xdbbbc9d6, 0xacbcf940, 0x32d86ce3, 0x45df5c75, 0xdcd60dcf, 0xabd13d59]

  const ROW_3: seq<bv32> := [
    0x26d930ac, 0x51de003a, 0xc8d75180, 0xbfd06116, 0x21b4f4b5, 0x56b3c423, 0xcfba9599, 0xb8bda50f,
    0x2802b89e, 0x5f058808, 0xc60cd9b2, 0xb10be924, 0x2f6f7c87, 0x58684c11, 0xc1611dab, 0xb6662d3d]

  const ROW_4: seq<bv32> := [
    0x76dc4190, 0x01db7106, 0x98d220bc, 0xefd5102a, 0x71b18589, 0x06b6b51f, 0x9fbfe4a5, 0xe8b8d433,
    0x7807c9a2, 0x0f00f934, 0x9609a88e, 0xe10e9818, 0x7f6a0dbb, 0x086d3d2d, 0x91646c97, 0xe6635c01]

  const ROW_5: seq<bv32> := [
    0x6b6b51f4, 0x1c6c6162, 0x856530d8, 0xf262004e, 0x6c0695ed, 0x1b01a57b, 0x8208f4c1, 0xf50fc457,
    0x65b0d9c6, 0x12b7e950, 0x8bbeb8ea, 0xfcb9887c, 0x62dd1ddf, 0x15da2d49, 0x8cd37cf3, 0xfbd44c65]

  const ROW_6: seq<bv32> := [
    0x4db26158, 0x3ab551ce, 0xa3bc0074, 0xd4bb30e2, 0x4adfa541, 0x3dd895d7, 0xa4d1c46d, 0xd3d6f4fb,
    0x4369e96a, 0x346ed9fc, 0xad678846, 0xda60b8d0, 0x44042d73, 0x33031de5, 0xaa0a4c5f, 0xdd0d7cc9]

  const ROW_7: seq<bv32> := [
    0x5005713c, 0x270241aa, 0xbe0b1010, 0xc90c2086, 0x5768b525, 0x206f85b3, 0xb966d409, 0xce61e49f,
    0x5edef90e, 0x29d9c998, 0xb0d09822, 0xc7d7a8b4, 0x59b33d17, 0x2eb40d81, 0xb7bd5c3b, 0xc0ba6cad]

  const ROW_8: seq<bv32> := [
    0xedb88320, 0x9abfb3b6, 0x03b6e20c, 0x74b1d29a, 0xead54739, 0x9dd277af, 0x04db2615, 0x73dc1683,
    0xe3630b12, 0x94643b84, 0x0d6d6a3e, 0x7a6a5aa8, 0xe40ecf0b, 0x9309ff9d, 0x0a00ae27, 0x7d079eb1]

  const ROW_9: seq<bv32> := [
    0xf00f9344, 0x8708a3d2, 0x1e01f268, 0x6906c2fe, 0xf762575d, 0x806567cb, 0x196c3671, 0x6e6b06e7,
    0xfed41b76, 0x89d32be0, 0x10da7a5a, 0x67dd4acc, 0xf9b9df6f, 0x8ebeeff9, 0x17b7be43, 0x60b08ed5]

  const ROW_A: seq<bv32> := [
    0xd6d6a3e8, 0xa1d1937e, 0x38d8c2c4, 0x4fdff252, 0xd1bb67f1, 0xa6bc5767, 0x3fb506dd, 0x48b2364b,
    0xd80d2bda, 0xaf0a1b4c, 0x36034af6, 0x41047a60, 0xdf60efc3, 0xa867df55, 0x316e8eef, 0x4669be79]

  const ROW_B: seq<bv32> := [
    0xcb61b38c, 0xbc66831a, 0x256fd2a0, 0x5268e236, 0xcc0c7795, 0xbb0b4703, 0x220216b9, 0x5505262f,
    0xc5ba3bbe, 0xb2bd0b28, 0x2bb45a92, 0x5cb36a04, 0xc2d7ffa7, 0xb5d0cf31, 0x2cd99e8b, 0x5bdeae1d]

  const ROW_C: seq<bv32> := [
    0x9b64c2b0, 0xec63f226, 0x756aa39c, 0x026d930a, 0x9c0906a9, 0xeb0e363f, 0x72076785, 0x05005713,
    0x95bf4a82, 0xe2b87a14, 0x7bb12bae, 0x0cb61b38, 0x92d28e9b, 0xe5d5be0d, 0x7cdcefb7, 0x0bdbdf21]

  const ROW_D: seq<bv32> := [
    0x86d3d2d4, 0xf1d4e242, 0x68ddb3f8, 0x1fda836e, 0x81be16cd, 0xf6b9265b, 0x6fb077e1, 0x18b74777,
    0x88085ae6, 0xff0f6a70, 0x66063bca, 0x11010b5c, 0x8f659eff, 0xf862ae69, 0x616bffd3, 0x166ccf45]

  const ROW_E: seq<bv32> := [
    0xa00ae278, 0xd70dd2ee, 0x4e048354, 0x3903b3c2, 0xa7672661, 0xd06016f7, 0x4969474d, 0x3e6e77db,
    0xaed16a4a, 0xd9d65adc, 0x40df0b66, 0x37d83bf0, 0xa9bcae53, 0xdebb9ec5, 0x47b2cf7f, 0x30b5ffe9]

  const ROW_F: seq<bv32> := [
    0xbdbdf21c, 0xcabac28a, 0x53b39330, 0x24b4a3a6, 0xbad03605, 0xcdd70693, 0x54de5729, 0x23d967bf,
    0xb3667a2e, 0xc4614ab8, 0x5d681b02, 0x2a6f2b94, 0xb40bbe37, 0xc30c8ea1, 0x5a05df1b, 0x2d02ef8d]

  function RowOf(r: nat): (row: seq<bv32>)
    requires r < 16
    ensures |row| == 16
  {
    match r
    case 0 => ROW_0
    case 1 => ROW_1
    case 2 => ROW_2
    case 3 => ROW_3
    case 4 => ROW_4
    case 5 => ROW_5
    case 6 => ROW_6
    case 7 => ROW_7
    case 8 => ROW_8
    case 9 => ROW_9
    case 10 => ROW_A
    case 11 => ROW_B
    case 12 => ROW_C
    case 13 => ROW_D
    case 14 => ROW_E
    case _ => ROW_F
  }

  /** crc32_tab[i]. */
  function Table(i: nat): bv32
    requires i < 256
  {
    RowOf(i / 16)[i % 16]
  }

  lemma FirstRow(lo: bv32)
    requires lo <= 0xf
    ensures lo as int < |ROW_0| && ROW_0[lo as int] == NibbleShifts(lo)
  {
  }

  /** Every other row is the first row with the row's own first entry added to it. */
  ghost predicate Follows(row: seq<bv32>, first: seq<bv32>) {
    |row| == |first| == 16 && forall k | 0 <= k < 16 :: row[k] == row[0] ^ first[k]
  }

  lemma Row0()
    ensures Follows(ROW_0, ROW_0) && ROW_0[0] == ShiftBy(0x00, 8)
  {
  }

  lemma Row1()
    ensures Follows(ROW_1, ROW_0) && ROW_1[0] == ShiftBy(0x10, 8)
  {
  }

  lemma Row2()
    ensures Follows(ROW_2, ROW_0) && ROW_2[0] == ShiftBy(0x20, 8)
  {
  }

  lemma Row3()
    ensures Follows(ROW_3, ROW_0) && ROW_3[0] == ShiftBy(0x30, 8)
  {
  }

  lemma Row4()
    ensures Follows(ROW_4, ROW_0) && ROW_4[0] == ShiftBy(0x40, 8)
  {
  }

  lemma Row5()
    ensures Follows(ROW_5, ROW_0) && ROW_5[0] == ShiftBy(0x50, 8)
  {
  }

  lemma Row6()
    ensures Follows(ROW_6, ROW_0) && ROW_6[0] == ShiftBy(0x60, 8)
  {
  }

  lemma Row7()
    ensures Follows(ROW_7, ROW_0) && ROW_7[0] == ShiftBy(0x70, 8)
  {
  }

  lemma Row8()
    ensures Follows(ROW_8, ROW_0) && ROW_8[0] == ShiftBy(0x80, 8)
  {
  }

  lemma Row9()
    ensures Follows(ROW_9, ROW_0) && ROW_9[0] == ShiftBy(0x90, 8)
  {
  }

  lemma RowA()
    ensures Follows(ROW_A, ROW_0) && ROW_A[0] == ShiftBy(0xa0, 8)
  {
  }

  lemma RowB()
    ensures Follows(ROW_B, ROW_0) && ROW_B[0] == ShiftBy(0xb0, 8)
  {
  }

  lemma RowC()
    ensures Follows(ROW_C, ROW_0) && ROW_C[0] == ShiftBy(0xc0, 8)
  {
  }

  lemma RowD()
    ensures Follows(ROW_D, ROW_0) && ROW_D[0] == ShiftBy(0xd0, 8)
  {
  }

  lemma RowE()
    ensures Follows(ROW_E, ROW_0) && ROW_E[0] == ShiftBy(0xe0, 8)
  {
  }

  lemma RowF()
    ensures Follows(ROW_F, ROW_0) && ROW_F[0] == ShiftBy(0xf0, 8)
  {
  }

  lemma RowFollows(r: nat, hi: bv32, n: nat)
    requires r < 16 && hi as int == 16 * r && n == 8
    ensures Follows(RowOf(r), ROW_0) && RowOf(r)[0] == ShiftBy(hi, n)
  {
    match r {
      case 0 => Row0();
      case 1 => Row1();
      case 2 => Row2();
      case 3 => Row3();
      case 4 => Row4();
      case 5 => Row5();
      case 6 => Row6();
      case 7 => Row7();
      case 8 => Row8();
      case 9 => Row9();
      case 10 => RowA();
      case 11 => RowB();
      case 12 => RowC();
      case 13 => RowD();
      case 14 => RowE();
      case _ => RowF();
    }
  }

  lemma RowAndColumn(x: bv32)
    requires x <= 0xff
    ensures x as int < 256 && x as int / 16 == (x >> 4) as int && x as int % 16 == (x & 0xf) as int
  {
    assert x as int == 16 * (x >> 4) as int + (x & 0xf) as int;
  }

  lemma RowStart(x: bv32)
    requires x <= 0xff
    ensures (x >> 4) as int < 16 && 16 * (x >> 4) as int == (x & 0xf0) as int
  {
  }

  lemma Nibbles(x: bv32)
    requires x <= 0xff
    ensures x == Plus(x & 0xf0, x & 0xf)
  {
  }

  lemma FollowsAdds(row: seq<bv32>, first: seq<bv32>, k: nat)
    requires Follows(row, first) && k < 16
    ensures row[k] == Plus(row[0], first[k])
  {
  }

  lemma RowEntry(row: seq<bv32>, first: seq<bv32>, hi: bv32, lo: bv32, k: nat, n: nat)
    requires Follows(row, first) && k < 16 && row[0] == ShiftBy(hi, n) && first[k] == ShiftBy(lo, n)
    ensures row[k] == ShiftBy(Plus(hi, lo), n)
  {
    FollowsAdds(row, first, k);
    ShiftsAdd(Plus(hi, lo), hi, lo, row[0], first[k], n);
  }

  /** Every constant of the table is its own index shifted eight times. */
  lemma TableIsEightShifts(x: bv32, n: nat)
    requires x <= 0xff && n == 8
    ensures x as int < 256 && Table(x as int) == ShiftBy(x, n)
  {
    RowAndColumn(x);
    RowStart(x);
    RowFollows((x >> 4) as int, x & 0xf0, n);
    FirstRow(x & 0xf);
    NibbleIsEightShifts(x & 0xf, n);
    RowEntry(RowOf((x >> 4) as int), ROW_0, x & 0xf0, x & 0xf, (x & 0xf) as int, n);
    Nibbles(x);
  }
}
