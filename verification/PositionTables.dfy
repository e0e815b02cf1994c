/** The four tables of the position code, entry by entry: what the ranges of `PositionCode` stand for. */
module PositionTables {
  import opened PositionCode

  /** `p_len` */
  lemma PLenEntries()
    ensures PLen(0) == 3 && PLen(1) == 4 && PLen(2) == 4 && PLen(3) == 4
    ensures PLen(4) == 5 && PLen(5) == 5 && PLen(6) == 5 && PLen(7) == 5
    ensures PLen(8) == 5 && PLen(9) == 5 && PLen(10) == 6 && PLen(11) == 6
    ensures PLen(12) == 6 && PLen(13) == 6 && PLen(14) == 6 && PLen(15) == 6
    ensures PLen(16) == 6 && PLen(17) == 6 && PLen(18) == 6 && PLen(19) == 6
    ensures PLen(20) == 6 && PLen(21) == 6 && PLen(22) == 6 && PLen(23) == 6
    ensures PLen(24) == 7 && PLen(25) == 7 && PLen(26) == 7 && PLen(27) == 7
    ensures PLen(28) == 7 && PLen(29) == 7 && PLen(30) == 7 && PLen(31) == 7
    ensures PLen(32) == 7 && PLen(33) == 7 && PLen(34) == 7 && PLen(35) == 7
    ensures PLen(36) == 7 && PLen(37) == 7 && PLen(38) == 7 && PLen(39) == 7
    ensures PLen(40) == 7 && PLen(41) == 7 && PLen(42) == 7 && PLen(43) == 7
    ensures PLen(44) == 7 && PLen(45) == 7 && PLen(46) == 7 && PLen(47) == 7
    ensures PLen(48) == 8 && PLen(49) == 8 && PLen(50) == 8 && PLen(51) == 8
    ensures PLen(52) == 8 && PLen(53) == 8 && PLen(54) == 8 && PLen(55) == 8
    ensures PLen(56) == 8 && PLen(57) == 8 && PLen(58) == 8 && PLen(59) == 8
    ensures PLen(60) == 8 && PLen(61) == 8 && PLen(62) == 8 && PLen(63) == 8
  {
  }

  /** `p_code` */
  lemma PCodeEntries()
    ensures PCode(0) == 0x00 && PCode(1) == 0x20 && PCode(2) == 0x30 && PCode(3) == 0x40
    ensures PCode(4) == 0x50 && PCode(5) == 0x58 && PCode(6) == 0x60 && PCode(7) == 0x68
    ensures PCode(8) == 0x70 && PCode(9) == 0x78 && PCode(10) == 0x80 && PCode(11) == 0x88
    ensures PCode(12) == 0x90 && PCode(13) == 0x94 && PCode(14) == 0x98 && PCode(15) == 0x9C
    ensures PCode(16) == 0xA0 && PCode(17) == 0xA4 && PCode(18) == 0xA8 && PCode(19) == 0xAC
    ensures PCode(20) == 0xB0 && PCode(21) == 0xB4 && PCode(22) == 0xB8 && PCode(23) == 0xBC
    ensures PCode(24) == 0xC0 && PCode(25) == 0xC2 && PCode(26) == 0xC4 && PCode(27) == 0xC6
    ensures PCode(28) == 0xC8 && PCode(29) == 0xCA && PCode(30) == 0xCC && PCode(31) == 0xCE
    ensures PCode(32) == 0xD0 && PCode(33) == 0xD2 && PCode(34) == 0xD4 && PCode(35) == 0xD6
    ensures PCode(36) == 0xD8 && PCode(37) == 0xDA && PCode(38) == 0xDC && PCode(39) == 0xDE
    ensures PCode(40) == 0xE0 && PCode(41) == 0xE2 && PCode(42) == 0xE4 && PCode(43) == 0xE6
    ensures PCode(44) == 0xE8 && PCode(45) == 0xEA && PCode(46) == 0xEC && PCode(47) == 0xEE
    ensures PCode(48) == 0xF0 && PCode(49) == 0xF1 && PCode(50) == 0xF2 && PCode(51) == 0xF3
    ensures PCode(52) == 0xF4 && PCode(53) == 0xF5 && PCode(54) == 0xF6 && PCode(55) == 0xF7
    ensures PCode(56) == 0xF8 && PCode(57) == 0xF9 && PCode(58) == 0xFA && PCode(59) == 0xFB
    ensures PCode(60) == 0xFC && PCode(61) == 0xFD && PCode(62) == 0xFE && PCode(63) == 0xFF
  {
  }

  /** `d_code` from 0x00 on */
  lemma DCode0Entries()
    ensures DCode(0x00) == 0x00 && DCode(0x01) == 0x00 && DCode(0x02) == 0x00 && DCode(0x03) == 0x00
    ensures DCode(0x04) == 0x00 && DCode(0x05) == 0x00 && DCode(0x06) == 0x00 && DCode(0x07) == 0x00
    ensures DCode(0x08) == 0x00 && DCode(0x09) == 0x00 && DCode(0x0A) == 0x00 && DCode(0x0B) == 0x00
    ensures DCode(0x0C) == 0x00 && DCode(0x0D) == 0x00 && DCode(0x0E) == 0x00 && DCode(0x0F) == 0x00
    ensures DCode(0x10) == 0x00 && DCode(0x11) == 0x00 && DCode(0x12) == 0x00 && DCode(0x13) == 0x00
    ensures DCode(0x14) == 0x00 && DCode(0x15) == 0x00 && DCode(0x16) == 0x00 && DCode(0x17) == 0x00
    ensures DCode(0x18) == 0x00 && DCode(0x19) == 0x00 && DCode(0x1A) == 0x00 && DCode(0x1B) == 0x00
    ensures DCode(0x1C) == 0x00 && DCode(0x1D) == 0x00 && DCode(0x1E) == 0x00 && DCode(0x1F) == 0x00
    ensures DCode(0x20) == 0x01 && DCode(0x21) == 0x01 && DCode(0x22) == 0x01 && DCode(0x23) == 0x01
    ensures DCode(0x24) == 0x01 && DCode(0x25) == 0x01 && DCode(0x26) == 0x01 && DCode(0x27) == 0x01
    ensures DCode(0x28) == 0x01 && DCode(0x29) == 0x01 && DCode(0x2A) == 0x01 && DCode(0x2B) == 0x01
    ensures DCode(0x2C) == 0x01 && DCode(0x2D) == 0x01 && DCode(0x2E) == 0x01 && DCode(0x2F) == 0x01
    ensures DCode(0x30) == 0x02 && DCode(0x31) == 0x02 && DCode(0x32) == 0x02 && DCode(0x33) == 0x02
    ensures DCode(0x34) == 0x02 && DCode(0x35) == 0x02 && DCode(0x36) == 0x02 && DCode(0x37) == 0x02
    ensures DCode(0x38) == 0x02 && DCode(0x39) == 0x02 && DCode(0x3A) == 0x02 && DCode(0x3B) == 0x02
    ensures DCode(0x3C) == 0x02 && DCode(0x3D) == 0x02 && DCode(0x3E) == 0x02 && DCode(0x3F) == 0x02
  {
  }

  /** `d_code` from 0x40 on */
  lemma DCode1Entries()
    ensures DCode(0x40) == 0x03 && DCode(0x41) == 0x03 && DCode(0x42) == 0x03 && DCode(0x43) == 0x03
    ensures DCode(0x44) == 0x03 && DCode(0x45) == 0x03 && DCode(0x46) == 0x03 && DCode(0x47) == 0x03
    ensures DCode(0x48) == 0x03 && DCode(0x49) == 0x03 && DCode(0x4A) == 0x03 && DCode(0x4B) == 0x03
    ensures DCode(0x4C) == 0x03 && DCode(0x4D) == 0x03 && DCode(0x4E) == 0x03 && DCode(0x4F) == 0x03
    ensures DCode(0x50) == 0x04 && DCode(0x51) == 0x04 && DCode(0x52) == 0x04 && DCode(0x53) == 0x04
    ensures DCode(0x54) == 0x04 && DCode(0x55) == 0x04 && DCode(0x56) == 0x04 && DCode(0x57) == 0x04
    ensures DCode(0x58) == 0x05 && DCode(0x59) == 0x05 && DCode(0x5A) == 0x05 && DCode(0x5B) == 0x05
    ensures DCode(0x5C) == 0x05 && DCode(0x5D) == 0x05 && DCode(0x5E) == 0x05 && DCode(0x5F) == 0x05
    ensures DCode(0x60) == 0x06 && DCode(0x61) == 0x06 && DCode(0x62) == 0x06 && DCode(0x63) == 0x06
    ensures DCode(0x64) == 0x06 && DCode(0x65) == 0x06 && DCode(0x66) == 0x06 && DCode(0x67) == 0x06
    ensures DCode(0x68) == 0x07 && DCode(0x69) == 0x07 && DCode(0x6A) == 0x07 && DCode(0x6B) == 0x07
    ensures DCode(0x6C) == 0x07 && DCode(0x6D) == 0x07 && DCode(0x6E) == 0x07 && DCode(0x6F) == 0x07
    ensures DCode(0x70) == 0x08 && DCode(0x71) == 0x08 && DCode(0x72) == 0x08 && DCode(0x73) == 0x08
    ensures DCode(0x74) == 0x08 && DCode(0x75) == 0x08 && DCode(0x76) == 0x08 && DCode(0x77) == 0x08
    ensures DCode(0x78) == 0x09 && DCode(0x79) == 0x09 && DCode(0x7A) == 0x09 && DCode(0x7B) == 0x09
    ensures DCode(0x7C) == 0x09 && DCode(0x7D) == 0x09 && DCode(0x7E) == 0x09 && DCode(0x7F) == 0x09
  {
  }

  /** `d_code` from 0x80 on */
  lemma DCode2Entries()
    ensures DCode(0x80) == 0x0A && DCode(0x81) == 0x0A && DCode(0x82) == 0x0A && DCode(0x83) == 0x0A
    ensures DCode(0x84) == 0x0A && DCode(0x85) == 0x0A && DCode(0x86) == 0x0A && DCode(0x87) == 0x0A
    ensures DCode(0x88) == 0x0B && DCode(0x89) == 0x0B && DCode(0x8A) == 0x0B && DCode(0x8B) == 0x0B
    ensures DCode(0x8C) == 0x0B && DCode(0x8D) == 0x0B && DCode(0x8E) == 0x0B && DCode(0x8F) == 0x0B
    ensures DCode(0x90) == 0x0C && DCode(0x91) == 0x0C && DCode(0x92) == 0x0C && DCode(0x93) == 0x0C
    ensures DCode(0x94) == 0x0D && DCode(0x95) == 0x0D && DCode(0x96) == 0x0D && DCode(0x97) == 0x0D
    ensures DCode(0x98) == 0x0E && DCode(0x99) == 0x0E && DCode(0x9A) == 0x0E && DCode(0x9B) == 0x0E
    ensures DCode(0x9C) == 0x0F && DCode(0x9D) == 0x0F && DCode(0x9E) == 0x0F && DCode(0x9F) == 0x0F
    ensures DCode(0xA0) == 0x10 && DCode(0xA1) == 0x10 && DCode(0xA2) == 0x10 && DCode(0xA3) == 0x10
    ensures DCode(0xA4) == 0x11 && DCode(0xA5) == 0x11 && DCode(0xA6) == 0x11 && DCode(0xA7) == 0x11
    ensures DCode(0xA8) == 0x12 && DCode(0xA9) == 0x12 && DCode(0xAA) == 0x12 && DCode(0xAB) == 0x12
    ensures DCode(0xAC) == 0x13 && DCode(0xAD) == 0x13 && DCode(0xAE) == 0x13 && DCode(0xAF) == 0x13
    ensures DCode(0xB0) == 0x14 && DCode(0xB1) == 0x14 && DCode(0xB2) == 0x14 && DCode(0xB3) == 0x14
    ensures DCode(0xB4) == 0x15 && DCode(0xB5) == 0x15 && DCode(0xB6) == 0x15 && DCode(0xB7) == 0x15
    ensures DCode(0xB8) == 0x16 && DCode(0xB9) == 0x16 && DCode(0xBA) == 0x16 && DCode(0xBB) == 0x16
    ensures DCode(0xBC) == 0x17 && DCode(0xBD) == 0x17 && DCode(0xBE) == 0x17 && DCode(0xBF) == 0x17
  {
  }

  /** `d_code` from 0xC0 on */
  lemma DCode3Entries()
    ensures DCode(0xC0) == 0x18 && DCode(0xC1) == 0x18 && DCode(0xC2) == 0x19 && DCode(0xC3) == 0x19
    ensures DCode(0xC4) == 0x1A && DCode(0xC5) == 0x1A && DCode(0xC6) == 0x1B && DCode(0xC7) == 0x1B
    ensures DCode(0xC8) == 0x1C && DCode(0xC9) == 0x1C && DCode(0xCA) == 0x1D && DCode(0xCB) == 0x1D
    ensures DCode(0xCC) == 0x1E && DCode(0xCD) == 0x1E && DCode(0xCE) == 0x1F && DCode(0xCF) == 0x1F
    ensures DCode(0xD0) == 0x20 && DCode(0xD1) == 0x20 && DCode(0xD2) == 0x21 && DCode(0xD3) == 0x21
    ensures DCode(0xD4) == 0x22 && DCode(0xD5) == 0x22 && DCode(0xD6) == 0x23 && DCode(0xD7) == 0x23
    ensures DCode(0xD8) == 0x24 && DCode(0xD9) == 0x24 && DCode(0xDA) == 0x25 && DCode(0xDB) == 0x25
    ensures DCode(0xDC) == 0x26 && DCode(0xDD) == 0x26 && DCode(0xDE) == 0x27 && DCode(0xDF) == 0x27
    ensures DCode(0xE0) == 0x28 && DCode(0xE1) == 0x28 && DCode(0xE2) == 0x29 && DCode(0xE3) == 0x29
    ensures DCode(0xE4) == 0x2A && DCode(0xE5) == 0x2A && DCode(0xE6) == 0x2B && DCode(0xE7) == 0x2B
    ensures DCode(0xE8) == 0x2C && DCode(0xE9) == 0x2C && DCode(0xEA) == 0x2D && DCode(0xEB) == 0x2D
    ensures DCode(0xEC) == 0x2E && DCode(0xED) == 0x2E && DCode(0xEE) == 0x2F && DCode(0xEF) == 0x2F
    ensures DCode(0xF0) == 0x30 && DCode(0xF1) == 0x31 && DCode(0xF2) == 0x32 && DCode(0xF3) == 0x33
    ensures DCode(0xF4) == 0x34 && DCode(0xF5) == 0x35 && DCode(0xF6) == 0x36 && DCode(0xF7) == 0x37
    ensures DCode(0xF8) == 0x38 && DCode(0xF9) == 0x39 && DCode(0xFA) == 0x3A && DCode(0xFB) == 0x3B
    ensures DCode(0xFC) == 0x3C && DCode(0xFD) == 0x3D && DCode(0xFE) == 0x3E && DCode(0xFF) == 0x3F
  {
  }

  /** `d_len` from 0x00 on */
  lemma DLen0Entries()
    ensures DLen(0x00) == 3 && DLen(0x01) == 3 && DLen(0x02) == 3 && DLen(0x03) == 3
    ensures DLen(0x04) == 3 && DLen(0x05) == 3 && DLen(0x06) == 3 && DLen(0x07) == 3
    ensures DLen(0x08) == 3 && DLen(0x09) == 3 && DLen(0x0A) == 3 && DLen(0x0B) == 3
    ensures DLen(0x0C) == 3 && DLen(0x0D) == 3 && DLen(0x0E) == 3 && DLen(0x0F) == 3
    ensures DLen(0x10) == 3 && DLen(0x11) == 3 && DLen(0x12) == 3 && DLen(0x13) == 3
    ensures DLen(0x14) == 3 && DLen(0x15) == 3 && DLen(0x16) == 3 && DLen(0x17) == 3
    ensures DLen(0x18) == 3 && DLen(0x19) == 3 && DLen(0x1A) == 3 && DLen(0x1B) == 3
    ensures DLen(0x1C) == 3 && DLen(0x1D) == 3 && DLen(0x1E) == 3 && DLen(0x1F) == 3
    ensures DLen(0x20) == 4 && DLen(0x21) == 4 && DLen(0x22) == 4 && DLen(0x23) == 4
    ensures DLen(0x24) == 4 && DLen(0x25) == 4 && DLen(0x26) == 4 && DLen(0x27) == 4
    ensures DLen(0x28) == 4 && DLen(0x29) == 4 && DLen(0x2A) == 4 && DLen(0x2B) == 4
    ensures DLen(0x2C) == 4 && DLen(0x2D) == 4 && DLen(0x2E) == 4 && DLen(0x2F) == 4
    ensures DLen(0x30) == 4 && DLen(0x31) == 4 && DLen(0x32) == 4 && DLen(0x33) == 4
    ensures DLen(0x34) == 4 && DLen(0x35) == 4 && DLen(0x36) == 4 && DLen(0x37) == 4
    ensures DLen(0x38) == 4 && DLen(0x39) == 4 && DLen(0x3A) == 4 && DLen(0x3B) == 4
    ensures DLen(0x3C) == 4 && DLen(0x3D) == 4 && DLen(0x3E) == 4 && DLen(0x3F) == 4
  {
  }

  /** `d_len` from 0x40 on */
  lemma DLen1Entries()
    ensures DLen(0x40) == 4 && DLen(0x41) == 4 && DLen(0x42) == 4 && DLen(0x43) == 4
    ensures DLen(0x44) == 4 && DLen(0x45) == 4 && DLen(0x46) == 4 && DLen(0x47) == 4
    ensures DLen(0x48) == 4 && DLen(0x49) == 4 && DLen(0x4A) == 4 && DLen(0x4B) == 4
    ensures DLen(0x4C) == 4 && DLen(0x4D) == 4 && DLen(0x4E) == 4 && DLen(0x4F) == 4
    ensures DLen(0x50) == 5 && DLen(0x51) == 5 && DLen(0x52) == 5 && DLen(0x53) == 5
    ensures DLen(0x54) == 5 && DLen(0x55) == 5 && DLen(0x56) == 5 && DLen(0x57) == 5
    ensures DLen(0x58) == 5 && DLen(0x59) == 5 && DLen(0x5A) == 5 && DLen(0x5B) == 5
    ensures DLen(0x5C) == 5 && DLen(0x5D) == 5 && DLen(0x5E) == 5 && DLen(0x5F) == 5
    ensures DLen(0x60) == 5 && DLen(0x61) == 5 && DLen(0x62) == 5 && DLen(0x63) == 5
    ensures DLen(0x64) == 5 && DLen(0x65) == 5 && DLen(0x66) == 5 && DLen(0x67) == 5
    ensures DLen(0x68) == 5 && DLen(0x69) == 5 && DLen(0x6A) == 5 && DLen(0x6B) == 5
    ensures DLen(0x6C) == 5 && DLen(0x6D) == 5 && DLen(0x6E) == 5 && DLen(0x6F) == 5
    ensures DLen(0x70) == 5 && DLen(0x71) == 5 && DLen(0x72) == 5 && DLen(0x73) == 5
    ensures DLen(0x74) == 5 && DLen(0x75) == 5 && DLen(0x76) == 5 && DLen(0x77) == 5
    ensures DLen(0x78) == 5 && DLen(0x79) == 5 && DLen(0x7A) == 5 && DLen(0x7B) == 5
    ensures DLen(0x7C) == 5 && DLen(0x7D) == 5 && DLen(0x7E) == 5 && DLen(0x7F) == 5
  {
  }

  /** `d_len` from 0x80 on */
  lemma DLen2Entries()
    ensures DLen(0x80) == 6 && DLen(0x81) == 6 && DLen(0x82) == 6 && DLen(0x83) == 6
    ensures DLen(0x84) == 6 && DLen(0x85) == 6 && DLen(0x86) == 6 && DLen(0x87) == 6
    ensures DLen(0x88) == 6 && DLen(0x89) == 6 && DLen(0x8A) == 6 && DLen(0x8B) == 6
    ensures DLen(0x8C) == 6 && DLen(0x8D) == 6 && DLen(0x8E) == 6 && DLen(0x8F) == 6
    ensures DLen(0x90) == 6 && DLen(0x91) == 6 && DLen(0x92) == 6 && DLen(0x93) == 6
    ensures DLen(0x94) == 6 && DLen(0x95) == 6 && DLen(0x96) == 6 && DLen(0x97) == 6
    ensures DLen(0x98) == 6 && DLen(0x99) == 6 && DLen(0x9A) == 6 && DLen(0x9B) == 6
    ensures DLen(0x9C) == 6 && DLen(0x9D) == 6 && DLen(0x9E) == 6 && DLen(0x9F) == 6
    ensures DLen(0xA0) == 6 && DLen(0xA1) == 6 && DLen(0xA2) == 6 && DLen(0xA3) == 6
    ensures DLen(0xA4) == 6 && DLen(0xA5) == 6 && DLen(0xA6) == 6 && DLen(0xA7) == 6
    ensures DLen(0xA8) == 6 && DLen(0xA9) == 6 && DLen(0xAA) == 6 && DLen(0xAB) == 6
    ensures DLen(0xAC) == 6 && DLen(0xAD) == 6 && DLen(0xAE) == 6 && DLen(0xAF) == 6
    ensures DLen(0xB0) == 6 && DLen(0xB1) == 6 && DLen(0xB2) == 6 && DLen(0xB3) == 6
    ensures DLen(0xB4) == 6 && DLen(0xB5) == 6 && DLen(0xB6) == 6 && DLen(0xB7) == 6
    ensures DLen(0xB8) == 6 && DLen(0xB9) == 6 && DLen(0xBA) == 6 && DLen(0xBB) == 6
    ensures DLen(0xBC) == 6 && DLen(0xBD) == 6 && DLen(0xBE) == 6 && DLen(0xBF) == 6
  {
  }

  /** `d_len` from 0xC0 on */
  lemma DLen3Entries()
    ensures DLen(0xC0) == 7 && DLen(0xC1) == 7 && DLen(0xC2) == 7 && DLen(0xC3) == 7
    ensures DLen(0xC4) == 7 && DLen(0xC5) == 7 && DLen(0xC6) == 7 && DLen(0xC7) == 7
    ensures DLen(0xC8) == 7 && DLen(0xC9) == 7 && DLen(0xCA) == 7 && DLen(0xCB) == 7
    ensures DLen(0xCC) == 7 && DLen(0xCD) == 7 && DLen(0xCE) == 7 && DLen(0xCF) == 7
    ensures DLen(0xD0) == 7 && DLen(0xD1) == 7 && DLen(0xD2) == 7 && DLen(0xD3) == 7
    ensures DLen(0xD4) == 7 && DLen(0xD5) == 7 && DLen(0xD6) == 7 && DLen(0xD7) == 7
    ensures DLen(0xD8) == 7 && DLen(0xD9) == 7 && DLen(0xDA) == 7 && DLen(0xDB) == 7
    ensures DLen(0xDC) == 7 && DLen(0xDD) == 7 && DLen(0xDE) == 7 && DLen(0xDF) == 7
    ensures DLen(0xE0) == 7 && DLen(0xE1) == 7 && DLen(0xE2) == 7 && DLen(0xE3) == 7
    ensures DLen(0xE4) == 7 && DLen(0xE5) == 7 && DLen(0xE6) == 7 && DLen(0xE7) == 7
    ensures DLen(0xE8) == 7 && DLen(0xE9) == 7 && DLen(0xEA) == 7 && DLen(0xEB) == 7
    ensures DLen(0xEC) == 7 && DLen(0xED) == 7 && DLen(0xEE) == 7 && DLen(0xEF) == 7
    ensures DLen(0xF0) == 8 && DLen(0xF1) == 8 && DLen(0xF2) == 8 && DLen(0xF3) == 8
    ensures DLen(0xF4) == 8 && DLen(0xF5) == 8 && DLen(0xF6) == 8 && DLen(0xF7) == 8
    ensures DLen(0xF8) == 8 && DLen(0xF9) == 8 && DLen(0xFA) == 8 && DLen(0xFB) == 8
    ensures DLen(0xFC) == 8 && DLen(0xFD) == 8 && DLen(0xFE) == 8 && DLen(0xFF) == 8
  {
  }
}
