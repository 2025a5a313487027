/** The 256-entry table of mac-src/boot-crc32.h and its expansion over the bits of the index. */
module CrcTable {

  /** The table's constants, in the program's order, grouped by the high half of the index. */
  function Table(i: bv8): bv32 {
    var l := i & 15;
    match i >> 4
    case 0 =>
      (match l
       case 0 => 0x00000000 case 1 => 0x77073096 case 2 => 0xee0e612c case 3 => 0x990951ba
       case 4 => 0x076dc419 case 5 => 0x706af48f case 6 => 0xe963a535 case 7 => 0x9e6495a3
       case 8 => 0x0edb8832 case 9 => 0x79dcb8a4 case 10 => 0xe0d5e91e case 11 => 0x97d2d988
       case 12 => 0x09b64c2b case 13 => 0x7eb17cbd case 14 => 0xe7b82d07 case _ => 0x90bf1d91)
    case 1 =>
      (match l
       case 0 => 0x1db71064 case 1 => 0x6ab020f2 case 2 => 0xf3b97148 case 3 => 0x84be41de
       case 4 => 0x1adad47d case 5 => 0x6ddde4eb case 6 => 0xf4d4b551 case 7 => 0x83d385c7
       case 8 => 0x136c9856 case 9 => 0x646ba8c0 case 10 => 0xfd62f97a case 11 => 0x8a65c9ec
       case 12 => 0x14015c4f case 13 => 0x63066cd9 case 14 => 0xfa0f3d63 case _ => 0x8d080df5)
    case 2 =>
      (match l
       case 0 => 0x3b6e20c8 case 1 => 0x4c69105e case 2 => 0xd56041e4 case 3 => 0xa2677172
       case 4 => 0x3c03e4d1 case 5 => 0x4b04d447 case 6 => 0xd20d85fd case 7 => 0xa50ab56b
       case 8 => 0x35b5a8fa case 9 => 0x42b2986c case 10 => 0xdbbbc9d6 case 11 => 0xacbcf940
       case 12 => 0x32d86ce3 case 13 => 0x45df5c75 case 14 => 0xdcd60dcf case _ => 0xabd13d59)
    case 3 =>
      (match l
       case 0 => 0x26d930ac case 1 => 0x51de003a case 2 => 0xc8d75180 case 3 => 0xbfd06116
       case 4 => 0x21b4f4b5 case 5 => 0x56b3c423 case 6 => 0xcfba9599 case 7 => 0xb8bda50f
       case 8 => 0x2802b89e case 9 => 0x5f058808 case 10 => 0xc60cd9b2 case 11 => 0xb10be924
       case 12 => 0x2f6f7c87 case 13 => 0x58684c11 case 14 => 0xc1611dab case _ => 0xb6662d3d)
    case 4 =>
      (match l
       case 0 => 0x76dc4190 case 1 => 0x01db7106 case 2 => 0x98d220bc case 3 => 0xefd5102a
       case 4 => 0x71b18589 case 5 => 0x06b6b51f case 6 => 0x9fbfe4a5 case 7 => 0xe8b8d433
       case 8 => 0x7807c9a2 case 9 => 0x0f00f934 case 10 => 0x9609a88e case 11 => 0xe10e9818
       case 12 => 0x7f6a0dbb case 13 => 0x086d3d2d case 14 => 0x91646c97 case _ => 0xe6635c01)
    case 5 =>
      (match l
       case 0 => 0x6b6b51f4 case 1 => 0x1c6c6162 case 2 => 0x856530d8 case 3 => 0xf262004e
       case 4 => 0x6c0695ed case 5 => 0x1b01a57b case 6 => 0x8208f4c1 case 7 => 0xf50fc457
       case 8 => 0x65b0d9c6 case 9 => 0x12b7e950 case 10 => 0x8bbeb8ea case 11 => 0xfcb9887c
       case 12 => 0x62dd1ddf case 13 => 0x15da2d49 case 14 => 0x8cd37cf3 case _ => 0xfbd44c65)
    case 6 =>
      (match l
       case 0 => 0x4db26158 case 1 => 0x3ab551ce case 2 => 0xa3bc0074 case 3 => 0xd4bb30e2
       case 4 => 0x4adfa541 case 5 => 0x3dd895d7 case 6 => 0xa4d1c46d case 7 => 0xd3d6f4fb
       case 8 => 0x4369e96a case 9 => 0x346ed9fc case 10 => 0xad678846 case 11 => 0xda60b8d0
       case 12 => 0x44042d73 case 13 => 0x33031de5 case 14 => 0xaa0a4c5f case _ => 0xdd0d7cc9)
    case 7 =>
      (match l
       case 0 => 0x5005713c case 1 => 0x270241aa case 2 => 0xbe0b1010 case 3 => 0xc90c2086
       case 4 => 0x5768b525 case 5 => 0x206f85b3 case 6 => 0xb966d409 case 7 => 0xce61e49f
       case 8 => 0x5edef90e case 9 => 0x29d9c998 case 10 => 0xb0d09822 case 11 => 0xc7d7a8b4
       case 12 => 0x59b33d17 case 13 => 0x2eb40d81 case 14 => 0xb7bd5c3b case _ => 0xc0ba6cad)
    case 8 =>
      (match l
       case 0 => 0xedb88320 case 1 => 0x9abfb3b6 case 2 => 0x03b6e20c case 3 => 0x74b1d29a
       case 4 => 0xead54739 case 5 => 0x9dd277af case 6 => 0x04db2615 case 7 => 0x73dc1683
       case 8 => 0xe3630b12 case 9 => 0x94643b84 case 10 => 0x0d6d6a3e case 11 => 0x7a6a5aa8
       case 12 => 0xe40ecf0b case 13 => 0x9309ff9d case 14 => 0x0a00ae27 case _ => 0x7d079eb1)
    case 9 =>
      (match l
       case 0 => 0xf00f9344 case 1 => 0x8708a3d2 case 2 => 0x1e01f268 case 3 => 0x6906c2fe
       case 4 => 0xf762575d case 5 => 0x806567cb case 6 => 0x196c3671 case 7 => 0x6e6b06e7
       case 8 => 0xfed41b76 case 9 => 0x89d32be0 case 10 => 0x10da7a5a case 11 => 0x67dd4acc
       case 12 => 0xf9b9df6f case 13 => 0x8ebeeff9 case 14 => 0x17b7be43 case _ => 0x60b08ed5)
    case 10 =>
      (match l
       case 0 => 0xd6d6a3e8 case 1 => 0xa1d1937e case 2 => 0x38d8c2c4 case 3 => 0x4fdff252
       case 4 => 0xd1bb67f1 case 5 => 0xa6bc5767 case 6 => 0x3fb506dd case 7 => 0x48b2364b
       case 8 => 0xd80d2bda case 9 => 0xaf0a1b4c case 10 => 0x36034af6 case 11 => 0x41047a60
       case 12 => 0xdf60efc3 case 13 => 0xa867df55 case 14 => 0x316e8eef case _ => 0x4669be79)
    case 11 =>
      (match l
       case 0 => 0xcb61b38c case 1 => 0xbc66831a case 2 => 0x256fd2a0 case 3 => 0x5268e236
       case 4 => 0xcc0c7795 case 5 => 0xbb0b4703 case 6 => 0x220216b9 case 7 => 0x5505262f
       case 8 => 0xc5ba3bbe case 9 => 0xb2bd0b28 case 10 => 0x2bb45a92 case 11 => 0x5cb36a04
       case 12 => 0xc2d7ffa7 case 13 => 0xb5d0cf31 case 14 => 0x2cd99e8b case _ => 0x5bdeae1d)
    case 12 =>
      (match l
       case 0 => 0x9b64c2b0 case 1 => 0xec63f226 case 2 => 0x756aa39c case 3 => 0x026d930a
       case 4 => 0x9c0906a9 case 5 => 0xeb0e363f case 6 => 0x72076785 case 7 => 0x05005713
       case 8 => 0x95bf4a82 case 9 => 0xe2b87a14 case 10 => 0x7bb12bae case 11 => 0x0cb61b38
       case 12 => 0x92d28e9b case 13 => 0xe5d5be0d case 14 => 0x7cdcefb7 case _ => 0x0bdbdf21)
    case 13 =>
      (match l
       case 0 => 0x86d3d2d4 case 1 => 0xf1d4e242 case 2 => 0x68ddb3f8 case 3 => 0x1fda836e
       case 4 => 0x81be16cd case 5 => 0xf6b9265b case 6 => 0x6fb077e1 case 7 => 0x18b74777
       case 8 => 0x88085ae6 case 9 => 0xff0f6a70 case 10 => 0x66063bca case 11 => 0x11010b5c
       case 12 => 0x8f659eff case 13 => 0xf862ae69 case 14 => 0x616bffd3 case _ => 0x166ccf45)
    case 14 =>
      (match l
       case 0 => 0xa00ae278 case 1 => 0xd70dd2ee case 2 => 0x4e048354 case 3 => 0x3903b3c2
       case 4 => 0xa7672661 case 5 => 0xd06016f7 case 6 => 0x4969474d case 7 => 0x3e6e77db
       case 8 => 0xaed16a4a case 9 => 0xd9d65adc case 10 => 0x40df0b66 case 11 => 0x37d83bf0
       case 12 => 0xa9bcae53 case 13 => 0xdebb9ec5 case 14 => 0x47b2cf7f case _ => 0x30b5ffe9)
    case _ =>
      (match l
       case 0 => 0xbdbdf21c case 1 => 0xcabac28a case 2 => 0x53b39330 case 3 => 0x24b4a3a6
       case 4 => 0xbad03605 case 5 => 0xcdd70693 case 6 => 0x54de5729 case 7 => 0x23d967bf
       case 8 => 0xb3667a2e case 9 => 0xc4614ab8 case 10 => 0x5d681b02 case 11 => 0x2a6f2b94
       case 12 => 0xb40bbe37 case 13 => 0xc30c8ea1 case 14 => 0x5a05df1b case _ => 0x2d02ef8d)
  }

  /** The entry of `ab` is the xor of the entries of `a` and `b`, as `ab` is of `a` and `b`. */
  ghost predicate Halves(t: bv8 -> bv32, ab: bv8, a: bv8, b: bv8) {
    t(ab) == t(a) ^ t(b) && ab as bv32 == (a as bv32) ^ (b as bv32)
  }

  lemma EvenByteHalves(t: bv8 -> bv32, i: bv8, a: bv8, b: bv8)
    requires t == Table && a == i & 0xF0 && b == i & 0x0F && i & 1 == 0
    ensures Halves(t, i, a, b)
  {
  }

  lemma OddByteHalves(t: bv8 -> bv32, i: bv8, a: bv8, b: bv8)
    requires t == Table && a == i & 0xF0 && b == i & 0x0F && i & 1 != 0
    ensures Halves(t, i, a, b)
  {
  }

  lemma ByteHalves(t: bv8 -> bv32, i: bv8, a: bv8, b: bv8)
    requires t == Table && a == i & 0xF0 && b == i & 0x0F
    ensures Halves(t, i, a, b)
  {
    if i & 1 == 0 {
      EvenByteHalves(t, i, a, b);
    } else {
      OddByteHalves(t, i, a, b);
    }
  }

  lemma UpperNibbleHalves(t: bv8 -> bv32, i: bv8, a: bv8, b: bv8)
    requires t == Table && i & 0x0F == 0 && a == i & 0xC0 && b == i & 0x30
    ensures Halves(t, i, a, b)
  {
  }

  lemma LowerNibbleHalves(t: bv8 -> bv32, i: bv8, a: bv8, b: bv8)
    requires t == Table && i & 0xF0 == 0 && a == i & 0x0C && b == i & 0x03
    ensures Halves(t, i, a, b)
  {
  }

  lemma PairHalves(t: bv8 -> bv32, i: bv8, p: bv8, q: bv8, a: bv8, b: bv8)
    requires t == Table
    requires (p == 0x80 && q == 0x40) || (p == 0x20 && q == 0x10)
          || (p == 0x08 && q == 0x04) || (p == 0x02 && q == 0x01)
    requires i & (p | q) == i && a == i & p && b == i & q
    ensures Halves(t, i, a, b)
  {
  }
}
