/** The AX.25 deframer of ax25.cc: the frame check sequence, the HDLC
  * flag / bit-stuffing state machine over a stream of bits, and the
  * unpacking of an address field (sections 3.1, 3.6 and 3.12 of AX.25
  * version 2.2; the FCS is the 16-bit one of appendix C.2 of RFC 1662). */
module Ax25 {
  import opened Common
  import opened NodeConfig

  // ---------------------------------------------------------------------
  // Frame check sequence

  function Pick(c: bv16, a0: bv16, a1: bv16, a2: bv16, a3: bv16, a4: bv16, a5: bv16, a6: bv16, a7: bv16): bv16
  {
    if c == 0 then a0 else if c == 1 then a1 else if c == 2 then a2 else if c == 3 then a3
    else if c == 4 then a4 else if c == 5 then a5 else if c == 6 then a6 else a7
  }

  /** `crc_ccitt_table`, as a search tree on the row `i >> 3` (eight
    * entries per row). */
  function TableTree(i: bv16): bv16
    requires i < 256
  {
    var r := i >> 3;
    var c := i & 7;
    if r < 16 then
      if r < 8 then
        if r < 4 then
          if r < 2 then
            if r < 1 then
              Pick(c, 0x0000, 0x1189, 0x2312, 0x329b, 0x4624, 0x57ad, 0x6536, 0x74bf)
            else
              Pick(c, 0x8c48, 0x9dc1, 0xaf5a, 0xbed3, 0xca6c, 0xdbe5, 0xe97e, 0xf8f7)
          else
            if r < 3 then
              Pick(c, 0x1081, 0x0108, 0x3393, 0x221a, 0x56a5, 0x472c, 0x75b7, 0x643e)
            else
              Pick(c, 0x9cc9, 0x8d40, 0xbfdb, 0xae52, 0xdaed, 0xcb64, 0xf9ff, 0xe876)
        else
          if r < 6 then
            if r < 5 then
              Pick(c, 0x2102, 0x308b, 0x0210, 0x1399, 0x6726, 0x76af, 0x4434, 0x55bd)
            else
              Pick(c, 0xad4a, 0xbcc3, 0x8e58, 0x9fd1, 0xeb6e, 0xfae7, 0xc87c, 0xd9f5)
          else
            if r < 7 then
              Pick(c, 0x3183, 0x200a, 0x1291, 0x0318, 0x77a7, 0x662e, 0x54b5, 0x453c)
            else
              Pick(c, 0xbdcb, 0xac42, 0x9ed9, 0x8f50, 0xfbef, 0xea66, 0xd8fd, 0xc974)
      else
        if r < 12 then
          if r < 10 then
            if r < 9 then
              Pick(c, 0x4204, 0x538d, 0x6116, 0x709f, 0x0420, 0x15a9, 0x2732, 0x36bb)
            else
              Pick(c, 0xce4c, 0xdfc5, 0xed5e, 0xfcd7, 0x8868, 0x99e1, 0xab7a, 0xbaf3)
          else
            if r < 11 then
              Pick(c, 0x5285, 0x430c, 0x7197, 0x601e, 0x14a1, 0x0528, 0x37b3, 0x263a)
            else
              Pick(c, 0xdecd, 0xcf44, 0xfddf, 0xec56, 0x98e9, 0x8960, 0xbbfb, 0xaa72)
        else
          if r < 14 then
            if r < 13 then
              Pick(c, 0x6306, 0x728f, 0x4014, 0x519d, 0x2522, 0x34ab, 0x0630, 0x17b9)
            else
              Pick(c, 0xef4e, 0xfec7, 0xcc5c, 0xddd5, 0xa96a, 0xb8e3, 0x8a78, 0x9bf1)
          else
            if r < 15 then
              Pick(c, 0x7387, 0x620e, 0x5095, 0x411c, 0x35a3, 0x242a, 0x16b1, 0x0738)
            else
              Pick(c, 0xffcf, 0xee46, 0xdcdd, 0xcd54, 0xb9eb, 0xa862, 0x9af9, 0x8b70)
    else
      if r < 24 then
        if r < 20 then
          if r < 18 then
            if r < 17 then
              Pick(c, 0x8408, 0x9581, 0xa71a, 0xb693, 0xc22c, 0xd3a5, 0xe13e, 0xf0b7)
            else
              Pick(c, 0x0840, 0x19c9, 0x2b52, 0x3adb, 0x4e64, 0x5fed, 0x6d76, 0x7cff)
          else
            if r < 19 then
              Pick(c, 0x9489, 0x8500, 0xb79b, 0xa612, 0xd2ad, 0xc324, 0xf1bf, 0xe036)
            else
              Pick(c, 0x18c1, 0x0948, 0x3bd3, 0x2a5a, 0x5ee5, 0x4f6c, 0x7df7, 0x6c7e)
        else
          if r < 22 then
            if r < 21 then
              Pick(c, 0xa50a, 0xb483, 0x8618, 0x9791, 0xe32e, 0xf2a7, 0xc03c, 0xd1b5)
            else
              Pick(c, 0x2942, 0x38cb, 0x0a50, 0x1bd9, 0x6f66, 0x7eef, 0x4c74, 0x5dfd)
          else
            if r < 23 then
              Pick(c, 0xb58b, 0xa402, 0x9699, 0x8710, 0xf3af, 0xe226, 0xd0bd, 0xc134)
            else
              Pick(c, 0x39c3, 0x284a, 0x1ad1, 0x0b58, 0x7fe7, 0x6e6e, 0x5cf5, 0x4d7c)
      else
        if r < 28 then
          if r < 26 then
            if r < 25 then
              Pick(c, 0xc60c, 0xd785, 0xe51e, 0xf497, 0x8028, 0x91a1, 0xa33a, 0xb2b3)
            else
              Pick(c, 0x4a44, 0x5bcd, 0x6956, 0x78df, 0x0c60, 0x1de9, 0x2f72, 0x3efb)
          else
            if r < 27 then
              Pick(c, 0xd68d, 0xc704, 0xf59f, 0xe416, 0x90a9, 0x8120, 0xb3bb, 0xa232)
            else
              Pick(c, 0x5ac5, 0x4b4c, 0x79d7, 0x685e, 0x1ce1, 0x0d68, 0x3ff3, 0x2e7a)
        else
          if r < 30 then
            if r < 29 then
              Pick(c, 0xe70e, 0xf687, 0xc41c, 0xd595, 0xa12a, 0xb0a3, 0x8238, 0x93b1)
            else
              Pick(c, 0x6b46, 0x7acf, 0x4854, 0x59dd, 0x2d62, 0x3ceb, 0x0e70, 0x1ff9)
          else
            if r < 31 then
              Pick(c, 0xf78f, 0xe606, 0xd49d, 0xc514, 0xb1ab, 0xa022, 0x92b9, 0x8330)
            else
              Pick(c, 0x7bc7, 0x6a4e, 0x58d5, 0x495c, 0x3de3, 0x2c6a, 0x1ef1, 0x0f78)
  }

  /** `crc_ccitt_table[i]`. The table is reached through one recursive
    * step, which the verifier unfolds only at a known index. */
  function CrcTable(i: bv16): bv16
    requires i < 256
  {
    Lookup(i, 1)
  }

  function Lookup(i: bv16, n: nat): bv16
    requires i < 256
  {
    if n == 0 then TableTree(i) else Lookup(i, n - 1)
  }

  /** One step of the bitwise FCS computation of RFC 1662: shift right,
    * adding the reflected generator x^16 + x^12 + x^5 + 1 (0x8408) when the
    * bit shifted out is set. */
  function ReflectedBit(c: bv16): bv16
  {
    if c & 1 == 1 then (c >> 1) ^ 0x8408 else c >> 1
  }

  /** Eight bitwise steps: the FCS of one byte folded into a register. */
  function Reflected(x: bv16): bv16
  {
    ReflectedBit(ReflectedBit(ReflectedBit(ReflectedBit(ReflectedBit(ReflectedBit(ReflectedBit(ReflectedBit(x))))))))
  }

  lemma TableRow0(i: bv16)
    requires 0 <= i < 8
    ensures CrcTable(i) == Reflected(i)
  {
    if i == 0 { assert CrcTable(0) == Reflected(0); }
    else if i == 1 { assert CrcTable(1) == Reflected(1); }
    else if i == 2 { assert CrcTable(2) == Reflected(2); }
    else if i == 3 { assert CrcTable(3) == Reflected(3); }
    else if i == 4 { assert CrcTable(4) == Reflected(4); }
    else if i == 5 { assert CrcTable(5) == Reflected(5); }
    else if i == 6 { assert CrcTable(6) == Reflected(6); }
    else { assert CrcTable(7) == Reflected(7); }
  }

  lemma TableRow1(i: bv16)
    requires 8 <= i < 16
    ensures CrcTable(i) == Reflected(i)
  {
    if i == 8 { assert CrcTable(8) == Reflected(8); }
    else if i == 9 { assert CrcTable(9) == Reflected(9); }
    else if i == 10 { assert CrcTable(10) == Reflected(10); }
    else if i == 11 { assert CrcTable(11) == Reflected(11); }
    else if i == 12 { assert CrcTable(12) == Reflected(12); }
    else if i == 13 { assert CrcTable(13) == Reflected(13); }
    else if i == 14 { assert CrcTable(14) == Reflected(14); }
    else { assert CrcTable(15) == Reflected(15); }
  }

  lemma TableRow2(i: bv16)
    requires 16 <= i < 24
    ensures CrcTable(i) == Reflected(i)
  {
    if i == 16 { assert CrcTable(16) == Reflected(16); }
    else if i == 17 { assert CrcTable(17) == Reflected(17); }
    else if i == 18 { assert CrcTable(18) == Reflected(18); }
    else if i == 19 { assert CrcTable(19) == Reflected(19); }
    else if i == 20 { assert CrcTable(20) == Reflected(20); }
    else if i == 21 { assert CrcTable(21) == Reflected(21); }
    else if i == 22 { assert CrcTable(22) == Reflected(22); }
    else { assert CrcTable(23) == Reflected(23); }
  }

  lemma TableRow3(i: bv16)
    requires 24 <= i < 32
    ensures CrcTable(i) == Reflected(i)
  {
    if i == 24 { assert CrcTable(24) == Reflected(24); }
    else if i == 25 { assert CrcTable(25) == Reflected(25); }
    else if i == 26 { assert CrcTable(26) == Reflected(26); }
    else if i == 27 { assert CrcTable(27) == Reflected(27); }
    else if i == 28 { assert CrcTable(28) == Reflected(28); }
    else if i == 29 { assert CrcTable(29) == Reflected(29); }
    else if i == 30 { assert CrcTable(30) == Reflected(30); }
    else { assert CrcTable(31) == Reflected(31); }
  }

  lemma TableRow4(i: bv16)
    requires 32 <= i < 40
    ensures CrcTable(i) == Reflected(i)
  {
    if i == 32 { assert CrcTable(32) == Reflected(32); }
    else if i == 33 { assert CrcTable(33) == Reflected(33); }
    else if i == 34 { assert CrcTable(34) == Reflected(34); }
    else if i == 35 { assert CrcTable(35) == Reflected(35); }
    else if i == 36 { assert CrcTable(36) == Reflected(36); }
    else if i == 37 { assert CrcTable(37) == Reflected(37); }
    else if i == 38 { assert CrcTable(38) == Reflected(38); }
    else { assert CrcTable(39) == Reflected(39); }
  }

  lemma TableRow5(i: bv16)
    requires 40 <= i < 48
    ensures CrcTable(i) == Reflected(i)
  {
    if i == 40 { assert CrcTable(40) == Reflected(40); }
    else if i == 41 { assert CrcTable(41) == Reflected(41); }
    else if i == 42 { assert CrcTable(42) == Reflected(42); }
    else if i == 43 { assert CrcTable(43) == Reflected(43); }
    else if i == 44 { assert CrcTable(44) == Reflected(44); }
    else if i == 45 { assert CrcTable(45) == Reflected(45); }
    else if i == 46 { assert CrcTable(46) == Reflected(46); }
    else { assert CrcTable(47) == Reflected(47); }
  }

  lemma TableRow6(i: bv16)
    requires 48 <= i < 56
    ensures CrcTable(i) == Reflected(i)
  {
    if i == 48 { assert CrcTable(48) == Reflected(48); }
    else if i == 49 { assert CrcTable(49) == Reflected(49); }
    else if i == 50 { assert CrcTable(50) == Reflected(50); }
    else if i == 51 { assert CrcTable(51) == Reflected(51); }
    else if i == 52 { assert CrcTable(52) == Reflected(52); }
    else if i == 53 { assert CrcTable(53) == Reflected(53); }
    else if i == 54 { assert CrcTable(54) == Reflected(54); }
    else { assert CrcTable(55) == Reflected(55); }
  }

  lemma TableRow7(i: bv16)
    requires 56 <= i < 64
    ensures CrcTable(i) == Reflected(i)
  {
    if i == 56 { assert CrcTable(56) == Reflected(56); }
    else if i == 57 { assert CrcTable(57) == Reflected(57); }
    else if i == 58 { assert CrcTable(58) == Reflected(58); }
    else if i == 59 { assert CrcTable(59) == Reflected(59); }
    else if i == 60 { assert CrcTable(60) == Reflected(60); }
    else if i == 61 { assert CrcTable(61) == Reflected(61); }
    else if i == 62 { assert CrcTable(62) == Reflected(62); }
    else { assert CrcTable(63) == Reflected(63); }
  }

  lemma TableRow8(i: bv16)
    requires 64 <= i < 72
    ensures CrcTable(i) == Reflected(i)
  {
    if i == 64 { assert CrcTable(64) == Reflected(64); }
    else if i == 65 { assert CrcTable(65) == Reflected(65); }
    else if i == 66 { assert CrcTable(66) == Reflected(66); }
    else if i == 67 { assert CrcTable(67) == Reflected(67); }
    else if i == 68 { assert CrcTable(68) == Reflected(68); }
    else if i == 69 { assert CrcTable(69) == Reflected(69); }
    else if i == 70 { assert CrcTable(70) == Reflected(70); }
    else { assert CrcTable(71) == Reflected(71); }
  }

  lemma TableRow9(i: bv16)
    requires 72 <= i < 80
    ensures CrcTable(i) == Reflected(i)
  {
    if i == 72 { assert CrcTable(72) == Reflected(72); }
    else if i == 73 { assert CrcTable(73) == Reflected(73); }
    else if i == 74 { assert CrcTable(74) == Reflected(74); }
    else if i == 75 { assert CrcTable(75) == Reflected(75); }
    else if i == 76 { assert CrcTable(76) == Reflected(76); }
    else if i == 77 { assert CrcTable(77) == Reflected(77); }
    else if i == 78 { assert CrcTable(78) == Reflected(78); }
    else { assert CrcTable(79) == Reflected(79); }
  }

  lemma TableRow10(i: bv16)
    requires 80 <= i < 88
    ensures CrcTable(i) == Reflected(i)
  {
    if i == 80 { assert CrcTable(80) == Reflected(80); }
    else if i == 81 { assert CrcTable(81) == Reflected(81); }
    else if i == 82 { assert CrcTable(82) == Reflected(82); }
    else if i == 83 { assert CrcTable(83) == Reflected(83); }
    else if i == 84 { assert CrcTable(84) == Reflected(84); }
    else if i == 85 { assert CrcTable(85) == Reflected(85); }
    else if i == 86 { assert CrcTable(86) == Reflected(86); }
    else { assert CrcTable(87) == Reflected(87); }
  }

  lemma TableRow11(i: bv16)
    requires 88 <= i < 96
    ensures CrcTable(i) == Reflected(i)
  {
    if i == 88 { assert CrcTable(88) == Reflected(88); }
    else if i == 89 { assert CrcTable(89) == Reflected(89); }
    else if i == 90 { assert CrcTable(90) == Reflected(90); }
    else if i == 91 { assert CrcTable(91) == Reflected(91); }
    else if i == 92 { assert CrcTable(92) == Reflected(92); }
    else if i == 93 { assert CrcTable(93) == Reflected(93); }
    else if i == 94 { assert CrcTable(94) == Reflected(94); }
    else { assert CrcTable(95) == Reflected(95); }
  }

  lemma TableRow12(i: bv16)
    requires 96 <= i < 104
    ensures CrcTable(i) == Reflected(i)
  {
    if i == 96 { assert CrcTable(96) == Reflected(96); }
    else if i == 97 { assert CrcTable(97) == Reflected(97); }
    else if i == 98 { assert CrcTable(98) == Reflected(98); }
    else if i == 99 { assert CrcTable(99) == Reflected(99); }
    else if i == 100 { assert CrcTable(100) == Reflected(100); }
    else if i == 101 { assert CrcTable(101) == Reflected(101); }
    else if i == 102 { assert CrcTable(102) == Reflected(102); }
    else { assert CrcTable(103) == Reflected(103); }
  }

  lemma TableRow13(i: bv16)
    requires 104 <= i < 112
    ensures CrcTable(i) == Reflected(i)
  {
    if i == 104 { assert CrcTable(104) == Reflected(104); }
    else if i == 105 { assert CrcTable(105) == Reflected(105); }
    else if i == 106 { assert CrcTable(106) == Reflected(106); }
    else if i == 107 { assert CrcTable(107) == Reflected(107); }
    else if i == 108 { assert CrcTable(108) == Reflected(108); }
    else if i == 109 { assert CrcTable(109) == Reflected(109); }
    else if i == 110 { assert CrcTable(110) == Reflected(110); }
    else { assert CrcTable(111) == Reflected(111); }
  }

  lemma TableRow14(i: bv16)
    requires 112 <= i < 120
    ensures CrcTable(i) == Reflected(i)
  {
    if i == 112 { assert CrcTable(112) == Reflected(112); }
    else if i == 113 { assert CrcTable(113) == Reflected(113); }
    else if i == 114 { assert CrcTable(114) == Reflected(114); }
    else if i == 115 { assert CrcTable(115) == Reflected(115); }
    else if i == 116 { assert CrcTable(116) == Reflected(116); }
    else if i == 117 { assert CrcTable(117) == Reflected(117); }
    else if i == 118 { assert CrcTable(118) == Reflected(118); }
    else { assert CrcTable(119) == Reflected(119); }
  }

  lemma TableRow15(i: bv16)
    requires 120 <= i < 128
    ensures CrcTable(i) == Reflected(i)
  {
    if i == 120 { assert CrcTable(120) == Reflected(120); }
    else if i == 121 { assert CrcTable(121) == Reflected(121); }
    else if i == 122 { assert CrcTable(122) == Reflected(122); }
    else if i == 123 { assert CrcTable(123) == Reflected(123); }
    else if i == 124 { assert CrcTable(124) == Reflected(124); }
    else if i == 125 { assert CrcTable(125) == Reflected(125); }
    else if i == 126 { assert CrcTable(126) == Reflected(126); }
    else { assert CrcTable(127) == Reflected(127); }
  }

  lemma TableRow16(i: bv16)
    requires 128 <= i < 136
    ensures CrcTable(i) == Reflected(i)
  {
    if i == 128 { assert CrcTable(128) == Reflected(128); }
    else if i == 129 { assert CrcTable(129) == Reflected(129); }
    else if i == 130 { assert CrcTable(130) == Reflected(130); }
    else if i == 131 { assert CrcTable(131) == Reflected(131); }
    else if i == 132 { assert CrcTable(132) == Reflected(132); }
    else if i == 133 { assert CrcTable(133) == Reflected(133); }
    else if i == 134 { assert CrcTable(134) == Reflected(134); }
    else { assert CrcTable(135) == Reflected(135); }
  }

  lemma TableRow17(i: bv16)
    requires 136 <= i < 144
    ensures CrcTable(i) == Reflected(i)
  {
    if i == 136 { assert CrcTable(136) == Reflected(136); }
    else if i == 137 { assert CrcTable(137) == Reflected(137); }
    else if i == 138 { assert CrcTable(138) == Reflected(138); }
    else if i == 139 { assert CrcTable(139) == Reflected(139); }
    else if i == 140 { assert CrcTable(140) == Reflected(140); }
    else if i == 141 { assert CrcTable(141) == Reflected(141); }
    else if i == 142 { assert CrcTable(142) == Reflected(142); }
    else { assert CrcTable(143) == Reflected(143); }
  }

  lemma TableRow18(i: bv16)
    requires 144 <= i < 152
    ensures CrcTable(i) == Reflected(i)
  {
    if i == 144 { assert CrcTable(144) == Reflected(144); }
    else if i == 145 { assert CrcTable(145) == Reflected(145); }
    else if i == 146 { assert CrcTable(146) == Reflected(146); }
    else if i == 147 { assert CrcTable(147) == Reflected(147); }
    else if i == 148 { assert CrcTable(148) == Reflected(148); }
    else if i == 149 { assert CrcTable(149) == Reflected(149); }
    else if i == 150 { assert CrcTable(150) == Reflected(150); }
    else { assert CrcTable(151) == Reflected(151); }
  }

  lemma TableRow19(i: bv16)
    requires 152 <= i < 160
    ensures CrcTable(i) == Reflected(i)
  {
    if i == 152 { assert CrcTable(152) == Reflected(152); }
    else if i == 153 { assert CrcTable(153) == Reflected(153); }
    else if i == 154 { assert CrcTable(154) == Reflected(154); }
    else if i == 155 { assert CrcTable(155) == Reflected(155); }
    else if i == 156 { assert CrcTable(156) == Reflected(156); }
    else if i == 157 { assert CrcTable(157) == Reflected(157); }
    else if i == 158 { assert CrcTable(158) == Reflected(158); }
    else { assert CrcTable(159) == Reflected(159); }
  }

  lemma TableRow20(i: bv16)
    requires 160 <= i < 168
    ensures CrcTable(i) == Reflected(i)
  {
    if i == 160 { assert CrcTable(160) == Reflected(160); }
    else if i == 161 { assert CrcTable(161) == Reflected(161); }
    else if i == 162 { assert CrcTable(162) == Reflected(162); }
    else if i == 163 { assert CrcTable(163) == Reflected(163); }
    else if i == 164 { assert CrcTable(164) == Reflected(164); }
    else if i == 165 { assert CrcTable(165) == Reflected(165); }
    else if i == 166 { assert CrcTable(166) == Reflected(166); }
    else { assert CrcTable(167) == Reflected(167); }
  }

  lemma TableRow21(i: bv16)
    requires 168 <= i < 176
    ensures CrcTable(i) == Reflected(i)
  {
    if i == 168 { assert CrcTable(168) == Reflected(168); }
    else if i == 169 { assert CrcTable(169) == Reflected(169); }
    else if i == 170 { assert CrcTable(170) == Reflected(170); }
    else if i == 171 { assert CrcTable(171) == Reflected(171); }
    else if i == 172 { assert CrcTable(172) == Reflected(172); }
    else if i == 173 { assert CrcTable(173) == Reflected(173); }
    else if i == 174 { assert CrcTable(174) == Reflected(174); }
    else { assert CrcTable(175) == Reflected(175); }
  }

  lemma TableRow22(i: bv16)
    requires 176 <= i < 184
    ensures CrcTable(i) == Reflected(i)
  {
    if i == 176 { assert CrcTable(176) == Reflected(176); }
    else if i == 177 { assert CrcTable(177) == Reflected(177); }
    else if i == 178 { assert CrcTable(178) == Reflected(178); }
    else if i == 179 { assert CrcTable(179) == Reflected(179); }
    else if i == 180 { assert CrcTable(180) == Reflected(180); }
    else if i == 181 { assert CrcTable(181) == Reflected(181); }
    else if i == 182 { assert CrcTable(182) == Reflected(182); }
    else { assert CrcTable(183) == Reflected(183); }
  }

  lemma TableRow23(i: bv16)
    requires 184 <= i < 192
    ensures CrcTable(i) == Reflected(i)
  {
    if i == 184 { assert CrcTable(184) == Reflected(184); }
    else if i == 185 { assert CrcTable(185) == Reflected(185); }
    else if i == 186 { assert CrcTable(186) == Reflected(186); }
    else if i == 187 { assert CrcTable(187) == Reflected(187); }
    else if i == 188 { assert CrcTable(188) == Reflected(188); }
    else if i == 189 { assert CrcTable(189) == Reflected(189); }
    else if i == 190 { assert CrcTable(190) == Reflected(190); }
    else { assert CrcTable(191) == Reflected(191); }
  }

  lemma TableRow24(i: bv16)
    requires 192 <= i < 200
    ensures CrcTable(i) == Reflected(i)
  {
    if i == 192 { assert CrcTable(192) == Reflected(192); }
    else if i == 193 { assert CrcTable(193) == Reflected(193); }
    else if i == 194 { assert CrcTable(194) == Reflected(194); }
    else if i == 195 { assert CrcTable(195) == Reflected(195); }
    else if i == 196 { assert CrcTable(196) == Reflected(196); }
    else if i == 197 { assert CrcTable(197) == Reflected(197); }
    else if i == 198 { assert CrcTable(198) == Reflected(198); }
    else { assert CrcTable(199) == Reflected(199); }
  }

  lemma TableRow25(i: bv16)
    requires 200 <= i < 208
    ensures CrcTable(i) == Reflected(i)
  {
    if i == 200 { assert CrcTable(200) == Reflected(200); }
    else if i == 201 { assert CrcTable(201) == Reflected(201); }
    else if i == 202 { assert CrcTable(202) == Reflected(202); }
    else if i == 203 { assert CrcTable(203) == Reflected(203); }
    else if i == 204 { assert CrcTable(204) == Reflected(204); }
    else if i == 205 { assert CrcTable(205) == Reflected(205); }
    else if i == 206 { assert CrcTable(206) == Reflected(206); }
    else { assert CrcTable(207) == Reflected(207); }
  }

  lemma TableRow26(i: bv16)
    requires 208 <= i < 216
    ensures CrcTable(i) == Reflected(i)
  {
    if i == 208 { assert CrcTable(208) == Reflected(208); }
    else if i == 209 { assert CrcTable(209) == Reflected(209); }
    else if i == 210 { assert CrcTable(210) == Reflected(210); }
    else if i == 211 { assert CrcTable(211) == Reflected(211); }
    else if i == 212 { assert CrcTable(212) == Reflected(212); }
    else if i == 213 { assert CrcTable(213) == Reflected(213); }
    else if i == 214 { assert CrcTable(214) == Reflected(214); }
    else { assert CrcTable(215) == Reflected(215); }
  }

  lemma TableRow27(i: bv16)
    requires 216 <= i < 224
    ensures CrcTable(i) == Reflected(i)
  {
    if i == 216 { assert CrcTable(216) == Reflected(216); }
    else if i == 217 { assert CrcTable(217) == Reflected(217); }
    else if i == 218 { assert CrcTable(218) == Reflected(218); }
    else if i == 219 { assert CrcTable(219) == Reflected(219); }
    else if i == 220 { assert CrcTable(220) == Reflected(220); }
    else if i == 221 { assert CrcTable(221) == Reflected(221); }
    else if i == 222 { assert CrcTable(222) == Reflected(222); }
    else { assert CrcTable(223) == Reflected(223); }
  }

  lemma TableRow28(i: bv16)
    requires 224 <= i < 232
    ensures CrcTable(i) == Reflected(i)
  {
    if i == 224 { assert CrcTable(224) == Reflected(224); }
    else if i == 225 { assert CrcTable(225) == Reflected(225); }
    else if i == 226 { assert CrcTable(226) == Reflected(226); }
    else if i == 227 { assert CrcTable(227) == Reflected(227); }
    else if i == 228 { assert CrcTable(228) == Reflected(228); }
    else if i == 229 { assert CrcTable(229) == Reflected(229); }
    else if i == 230 { assert CrcTable(230) == Reflected(230); }
    else { assert CrcTable(231) == Reflected(231); }
  }

  lemma TableRow29(i: bv16)
    requires 232 <= i < 240
    ensures CrcTable(i) == Reflected(i)
  {
    if i == 232 { assert CrcTable(232) == Reflected(232); }
    else if i == 233 { assert CrcTable(233) == Reflected(233); }
    else if i == 234 { assert CrcTable(234) == Reflected(234); }
    else if i == 235 { assert CrcTable(235) == Reflected(235); }
    else if i == 236 { assert CrcTable(236) == Reflected(236); }
    else if i == 237 { assert CrcTable(237) == Reflected(237); }
    else if i == 238 { assert CrcTable(238) == Reflected(238); }
    else { assert CrcTable(239) == Reflected(239); }
  }

  lemma TableRow30(i: bv16)
    requires 240 <= i < 248
    ensures CrcTable(i) == Reflected(i)
  {
    if i == 240 { assert CrcTable(240) == Reflected(240); }
    else if i == 241 { assert CrcTable(241) == Reflected(241); }
    else if i == 242 { assert CrcTable(242) == Reflected(242); }
    else if i == 243 { assert CrcTable(243) == Reflected(243); }
    else if i == 244 { assert CrcTable(244) == Reflected(244); }
    else if i == 245 { assert CrcTable(245) == Reflected(245); }
    else if i == 246 { assert CrcTable(246) == Reflected(246); }
    else { assert CrcTable(247) == Reflected(247); }
  }

  lemma TableRow31(i: bv16)
    requires 248 <= i < 256
    ensures CrcTable(i) == Reflected(i)
  {
    if i == 248 { assert CrcTable(248) == Reflected(248); }
    else if i == 249 { assert CrcTable(249) == Reflected(249); }
    else if i == 250 { assert CrcTable(250) == Reflected(250); }
    else if i == 251 { assert CrcTable(251) == Reflected(251); }
    else if i == 252 { assert CrcTable(252) == Reflected(252); }
    else if i == 253 { assert CrcTable(253) == Reflected(253); }
    else if i == 254 { assert CrcTable(254) == Reflected(254); }
    else { assert CrcTable(255) == Reflected(255); }
  }

  /** Every entry of the table is the eight bitwise steps applied to its
    * index: the table is the one appendix C.2 of RFC 1662 generates. */
  lemma CrcTableIsGenerated(i: bv16)
    requires i < 256
    ensures CrcTable(i) == Reflected(i)
  {
    if i < 8 { TableRow0(i); }
    else if i < 16 { TableRow1(i); }
    else if i < 24 { TableRow2(i); }
    else if i < 32 { TableRow3(i); }
    else if i < 40 { TableRow4(i); }
    else if i < 48 { TableRow5(i); }
    else if i < 56 { TableRow6(i); }
    else if i < 64 { TableRow7(i); }
    else if i < 72 { TableRow8(i); }
    else if i < 80 { TableRow9(i); }
    else if i < 88 { TableRow10(i); }
    else if i < 96 { TableRow11(i); }
    else if i < 104 { TableRow12(i); }
    else if i < 112 { TableRow13(i); }
    else if i < 120 { TableRow14(i); }
    else if i < 128 { TableRow15(i); }
    else if i < 136 { TableRow16(i); }
    else if i < 144 { TableRow17(i); }
    else if i < 152 { TableRow18(i); }
    else if i < 160 { TableRow19(i); }
    else if i < 168 { TableRow20(i); }
    else if i < 176 { TableRow21(i); }
    else if i < 184 { TableRow22(i); }
    else if i < 192 { TableRow23(i); }
    else if i < 200 { TableRow24(i); }
    else if i < 208 { TableRow25(i); }
    else if i < 216 { TableRow26(i); }
    else if i < 224 { TableRow27(i); }
    else if i < 232 { TableRow28(i); }
    else if i < 240 { TableRow29(i); }
    else if i < 248 { TableRow30(i); }
    else { TableRow31(i); }
  }

  /** One byte folded into the register by `check_crc_ccitt`. The
    * register is a `uint32_t` in the source; it never leaves 16 bits
    * (the table's entries have 16), so it is a `bv16` here. */
  function CrcStep(crc: bv16, b: bv8): bv16
  {
    (crc >> 8) ^ CrcTable((crc ^ b as bv16) & 0xff)
  }

  /** The register after folding `buf` from the initial 0xffff. */
  function Crc(buf: seq<bv8>): bv16
  {
    if buf == [] then 0xffff else CrcStep(Crc(buf[..|buf| - 1]), buf[|buf| - 1])
  }

  /** `check_crc_ccitt` accepts a frame (data followed by its FCS) when
    * the register ends as the good final value 0xf0b8. */
  predicate CrcOk(buf: seq<bv8>)
  {
    Crc(buf) == 0xf0b8
  }

  /** The FCS a sender appends: the complemented register, low byte
    * first. */
  function Fcs(m: seq<bv8>): (r: seq<bv8>)
    ensures |r| == 2
  {
    [Fcs0(Crc(m)), Fcs1(Crc(m))]
  }

  /** Every message followed by its FCS passes the check: the constant
    * 0xf0b8 is the residue the FCS leaves in the register. */
  lemma FcsResidue(m: seq<bv8>)
    ensures CrcOk(m + Fcs(m))
  {
    var f := Fcs(m);
    assert (m + f)[..|m| + 1] == m + [f[0]];
    assert (m + [f[0]])[..|m|] == m;
    FcsLow(Crc(m));
    FcsHigh(Crc(m));
  }

  /** The low FCS byte clears the low byte of the register. */
  lemma FcsLow(r: bv16)
    ensures CrcStep(r, Fcs0(r)) == Fold(r)
  {
    assert (r ^ Fcs0(r) as bv16) & 0xff == 0xff;
    assert CrcTable(0xff) == 0x0f78;
  }

  /** The high FCS byte then leaves the residue. */
  lemma FcsHigh(r: bv16)
    ensures CrcStep(Fold(r), Fcs1(r)) == 0xf0b8
  {
    assert (Fold(r) ^ Fcs1(r) as bv16) & 0xff == 0x87;
    assert CrcTable(0x87) == 0xf0b7;
  }

  /** The FCS bytes of a register value: its complement, low byte first. */
  function Fcs0(r: bv16): bv8 { ((!r) & 0xff) as bv8 }
  function Fcs1(r: bv16): bv8 { ((!r) >> 8) as bv8 }

  /** The register after the low FCS byte. */
  function Fold(r: bv16): bv16 { (r >> 8) ^ 0x0f78 }

  /** The register after one more byte. */
  lemma CrcPrefix(buf: seq<bv8>, i: nat)
    requires i < |buf|
    ensures Crc(buf[..i + 1]) == CrcStep(Crc(buf[..i]), buf[i])
  {
    assert buf[..i + 1][..i] == buf[..i];
  }

  /** `check_crc_ccitt(buf, cnt)`: the fold loop over the bytes. */
  method CheckCrc(buf: seq<bv8>) returns (ok: bool)
    ensures ok <==> CrcOk(buf)
  {
    var crc: bv16 := 0xffff;
    var i := 0;
    while i < |buf|
      invariant 0 <= i <= |buf|
      invariant crc == Crc(buf[..i])
    {
      CrcPrefix(buf, i);
      crc := CrcStep(crc, buf[i]);
      i := i + 1;
    }
    assert buf[..i] == buf;
    ok := crc == 0xf0b8;
  }

  // ---------------------------------------------------------------------
  // Deframing

  /** `_rxbuffer` holds 512 bytes. */
  const RxSize: nat := 512

  /** The deframer's state: `_bitstream`, `_bitbuffer`, `_state` (receiving
    * or waiting for a flag) and the bytes stored so far in `_rxbuffer`.
    * Only the last eight bits of `_bitstream` are ever read, so only they
    * are kept; `_bitbuffer` never holds more than nine bits. */
  datatype Deframer = Deframer(bitstream: bv8, bitbuffer: bv16, receiving: bool, rx: seq<bv8>)

  /** The state after one bit and the frame it completes, if any. */
  datatype Stepped = Stepped(next: Deframer, frame: Option<seq<bv8>>)

  /** The state `config` leaves. */
  const Reset := Deframer(0, 0, false, [])

  /** The bit stream with the low bit of the input sample shifted in. */
  function Shift(bs: bv8, bit: bv8): bv8 { (bs << 1) | (bit & 1) }

  /** The last eight bits are the flag 01111110. */
  predicate IsFlag(bs: bv8) { bs == 0x7e }

  /** The frame a flag completes: the bytes received, when the deframer
    * was receiving, holds more than two bytes and the FCS is good. */
  function Completed(s: Deframer): (f: Option<seq<bv8>>)
    ensures f.Some? ==> f.value == s.rx && |s.rx| > 2 && CrcOk(s.rx)
  {
    if s.receiving && |s.rx| > 2 && CrcOk(s.rx) then Some(s.rx) else None
  }

  /** A bit that does not complete a flag, already shifted into the bit
    * stream of `s`. Seven ones in a row make the deframer wait for the
    * next flag. While receiving, a zero after five ones is a stuffed bit
    * and is dropped; any other bit enters bit 8 of the bit buffer, whose
    * marker bit reaching bit 0 completes a byte (least significant bit
    * first). A byte beyond the 512th aborts the frame. */
  function Receive(s: Deframer): (t: Deframer)
    ensures t.bitstream == s.bitstream
    ensures |t.rx| == |s.rx| || |t.rx| == |s.rx| + 1
    ensures |s.rx| <= RxSize ==> |t.rx| <= RxSize
    ensures t.receiving ==> s.receiving
  {
    var bs := s.bitstream;
    if bs & 0x7f == 0x7f then s.(receiving := false)
    else if !s.receiving || bs & 0x3f == 0x3e then s
    else
      var bb := Enter(s.bitbuffer, bs);
      if bb & 1 == 1 then
        if |s.rx| >= RxSize then s.(bitbuffer := bb, receiving := false)
        else Deframer(bs, 0x80, true, s.rx + [ByteOf(bb)])
      else
        s.(bitbuffer := Down(bb))
  }

  /** The bit buffer with the newest bit of the stream entered at bit 8. */
  function Enter(bb: bv16, bs: bv8): bv16 { bb | ((bs & 1) as bv16 << 8) }

  /** The bit buffer moved down one place as a bit arrives. */
  function Down(bb: bv16): bv16 { bb >> 1 }

  /** The byte a full bit buffer holds above its marker bit. */
  function ByteOf(bb: bv16): bv8 { ((bb >> 1) & 0xff) as bv8 }

  /** A data bit (`d`) that leaves the marker short of bit 0 is only
    * shifted in. */
  lemma DataBitShifts(s: Deframer)
    requires s.receiving && s.bitstream & 0x7f != 0x7f && s.bitstream & 0x3f != 0x3e
    requires Enter(s.bitbuffer, s.bitstream) & 1 != 1
    ensures Receive(s) == s.(bitbuffer := Down(Enter(s.bitbuffer, s.bitstream)))
  {
  }

  /** A data bit that completes a byte with 512 already held aborts. */
  lemma DataBitOverruns(s: Deframer)
    requires s.receiving && s.bitstream & 0x7f != 0x7f && s.bitstream & 0x3f != 0x3e
    requires Enter(s.bitbuffer, s.bitstream) & 1 == 1 && |s.rx| >= RxSize
    ensures Receive(s) == s.(bitbuffer := Enter(s.bitbuffer, s.bitstream), receiving := false)
  {
  }

  /** A data bit that completes a byte with room for it stores it. */
  lemma DataBitStores(s: Deframer)
    requires s.receiving && s.bitstream & 0x7f != 0x7f && s.bitstream & 0x3f != 0x3e
    requires Enter(s.bitbuffer, s.bitstream) & 1 == 1 && |s.rx| < RxSize
    ensures Receive(s) == Deframer(s.bitstream, 0x80, true, s.rx + [ByteOf(Enter(s.bitbuffer, s.bitstream))])
  {
  }

  /** One bit of `process`: the bit enters the low end of the bit stream;
    * a flag ends the frame being received and starts a new one. */
  function Step(s: Deframer, bit: bv8): (r: Stepped)
    ensures |s.rx| <= RxSize ==> |r.next.rx| <= RxSize
    ensures r.frame.Some? ==> r.frame.value == s.rx && |s.rx| > 2 && CrcOk(s.rx)
  {
    var bs := Shift(s.bitstream, bit);
    if IsFlag(bs) then Stepped(Deframer(bs, 0x80, true, []), Completed(s))
    else Stepped(Receive(s.(bitstream := bs)), None)
  }

  /** A frame is passed on exactly when a flag closes one of more than two
    * bytes with a good FCS; the flag starts an empty frame. */
  lemma FlagCloses(s: Deframer, bit: bv8)
    ensures Step(s, bit).frame.Some?
            <==> IsFlag(Shift(s.bitstream, bit)) && s.receiving && |s.rx| > 2 && CrcOk(s.rx)
    ensures IsFlag(Shift(s.bitstream, bit)) ==>
              Step(s, bit).next == Deframer(Shift(s.bitstream, bit), 0x80, true, [])
  {
  }

  /** Without a flag, seven ones in a row stop the reception, and a
    * deframer waiting for a flag keeps waiting and stores nothing. */
  lemma WaitsForFlag(s: Deframer, bit: bv8)
    requires !IsFlag(Shift(s.bitstream, bit))
    ensures Shift(s.bitstream, bit) & 0x7f == 0x7f ==> !Step(s, bit).next.receiving
    ensures !s.receiving ==> !Step(s, bit).next.receiving && Step(s, bit).next.rx == s.rx
  {
  }

  /** A zero after five ones (but not six) is removed: the state is as
    * before apart from the bit stream. */
  lemma StuffedBitDropped(s: Deframer)
    requires s.receiving && s.bitstream & 0x3f == 0x1f
    ensures Step(s, 0) == Stepped(s.(bitstream := Shift(s.bitstream, 0)), None)
  {
    var bs := Shift(s.bitstream, 0);
    assert !IsFlag(bs) && bs & 0x7f != 0x7f && bs & 0x3f == 0x3e;
  }

  /** The state and the frames passed on after a sequence of bits. */
  datatype Fed = Fed(state: Deframer, frames: seq<seq<bv8>>)

  /** `process` over a buffer of bits: every frame passed on is one of
    * three to 512 bytes with a good FCS, and at most 512 bytes are ever
    * held. */
  function Feed(s: Deframer, bits: seq<bv8>): (r: Fed)
    ensures |s.rx| <= RxSize ==> |r.state.rx| <= RxSize
    ensures |s.rx| <= RxSize ==> forall i :: 0 <= i < |r.frames| ==> 2 < |r.frames[i]| <= RxSize && CrcOk(r.frames[i])
    ensures |r.frames| <= |bits|
    decreases |bits|
  {
    if bits == [] then Fed(s, [])
    else
      var p := Feed(s, bits[..|bits| - 1]);
      var t := Step(p.state, bits[|bits| - 1]);
      Fed(t.next, p.frames + if t.frame.Some? then [t.frame.value] else [])
  }

  /** One more bit after a sequence of bits. */
  lemma FeedLast(s: Deframer, bits: seq<bv8>, b: bv8)
    ensures var p := Feed(s, bits); var t := Step(p.state, b);
            Feed(s, bits + [b]) == Fed(t.next, p.frames + if t.frame.Some? then [t.frame.value] else [])
  {
    assert (bits + [b])[..|bits|] == bits;
  }

  lemma {:induction false} FeedAppend(s: Deframer, a: seq<bv8>, b: seq<bv8>)
    ensures Feed(s, a + b) == Fed(Feed(Feed(s, a).state, b).state, Feed(s, a).frames + Feed(Feed(s, a).state, b).frames)
    decreases |b|
  {
    if b == [] {
      assert a + b == a;
    } else {
      var b' := b[..|b| - 1];
      assert (a + b)[..|a + b| - 1] == a + b';
      assert (a + b)[|a + b| - 1] == b[|b| - 1];
      FeedAppend(s, a, b');
    }
  }

  /** A zero shifted in after a zero leaves a stream that is neither a
    * flag, nor seven ones, nor a stuffed bit, and ends in a zero. */
  lemma ShiftZero(bs: bv8)
    requires bs & 1 == 0
    ensures var t := Shift(bs, 0); !IsFlag(t) && t & 0x7f != 0x7f && t & 0x3f != 0x3e && t & 1 == 0
  {
  }

  /** A zero bit received after a zero while the marker is short of bit 0
    * is shifted into the bit buffer. */
  lemma ZeroDataBit(s: Deframer)
    requires s.receiving && s.bitstream & 1 == 0 && s.bitbuffer & 1 == 0
    ensures Step(s, 0) == Stepped(s.(bitstream := Shift(s.bitstream, 0), bitbuffer := Down(s.bitbuffer)), None)
  {
    var t := s.(bitstream := Shift(s.bitstream, 0));
    ShiftZero(s.bitstream);
    DataBitShifts(t);
  }

  /** A zero bit received after a zero once the marker has reached bit 0
    * completes a byte, stored while there is room. */
  lemma ZeroDataByte(s: Deframer)
    requires s.receiving && s.bitstream & 1 == 0 && s.bitbuffer & 1 == 1 && s.bitbuffer < 0x100 && |s.rx| < RxSize
    ensures Step(s, 0) == Stepped(Deframer(Shift(s.bitstream, 0), 0x80, true, s.rx + [ByteOf(s.bitbuffer)]), None)
  {
    var t := s.(bitstream := Shift(s.bitstream, 0));
    ShiftZero(s.bitstream);
    EnterZero(s.bitbuffer, t.bitstream);
    DataBitStores(t);
  }

  /** A zero enters nothing into a bit buffer below bit 8. */
  lemma EnterZero(bb: bv16, bs: bv8)
    requires bs & 1 == 0
    ensures Enter(bb, bs) == bb
  {
  }

  function Zeros(n: nat): (r: seq<bv8>)
    ensures |r| == n && forall i :: 0 <= i < n ==> r[i] == 0
  {
    seq(n, _ => 0)
  }

  lemma ZerosSplit(a: nat, b: nat)
    ensures Zeros(a + b) == Zeros(a) + Zeros(b)
  {
    assert Zeros(a + b) == Zeros(a) + Zeros(b);
  }

  /** The bit buffer of a byte whose first k bits have arrived as zeros:
    * the marker bit 0x80 shifted k places down. */
  function Marker(k: nat): (m: bv16)
    ensures k < 7 ==> m & 1 == 0
    ensures k == 7 ==> m == 1
  {
    if k == 0 then 0x80
    else if k == 1 then 0x40
    else if k == 2 then 0x20
    else if k == 3 then 0x10
    else if k == 4 then 0x08
    else if k == 5 then 0x04
    else if k == 6 then 0x02
    else if k == 7 then 0x01
    else 0
  }

  /** The marker moves down one place per bit. */
  lemma MarkerDown(k: nat)
    requires 0 < k < 8
    ensures Down(Marker(k - 1)) == Marker(k)
  {
    if k == 1 {
      assert Down(0x80) == 0x40;
    } else if k == 2 {
      assert Down(0x40) == 0x20;
    } else if k == 3 {
      assert Down(0x20) == 0x10;
    } else if k == 4 {
      assert Down(0x10) == 0x08;
    } else if k == 5 {
      assert Down(0x08) == 0x04;
    } else if k == 6 {
      assert Down(0x04) == 0x02;
    } else {
      assert Down(0x02) == 0x01;
    }
  }

  /** k < 8 zero bits move the marker of an empty bit buffer k places down. */
  lemma {:induction false} ZeroBits(s: Deframer, k: nat)
    requires s.receiving && s.bitstream & 1 == 0 && s.bitbuffer == 0x80 && k < 8
    ensures Feed(s, Zeros(k)).frames == []
    ensures Feed(s, Zeros(k)).state.receiving && Feed(s, Zeros(k)).state.rx == s.rx
    ensures Feed(s, Zeros(k)).state.bitstream & 1 == 0
    ensures Feed(s, Zeros(k)).state.bitbuffer == Marker(k)
  {
    if k > 0 {
      ZeroBits(s, k - 1);
      ZerosSplit(k - 1, 1);
      FeedLast(s, Zeros(k - 1), 0);
      var p := Feed(s, Zeros(k - 1)).state;
      ZeroDataBit(p);
      ShiftZero(p.bitstream);
      MarkerDown(k);
    }
  }

  /** Receiving at a byte boundary, the last bit a zero. */
  predicate AtByte(d: Deframer)
  {
    d.receiving && d.bitstream & 1 == 0 && d.bitbuffer == 0x80
  }

  /** Eight zero bits store one zero byte. */
  lemma ZeroByte(s: Deframer)
    requires AtByte(s) && |s.rx| < RxSize
    ensures Feed(s, Zeros(8)).frames == [] && AtByte(Feed(s, Zeros(8)).state) && Feed(s, Zeros(8)).state.rx == s.rx + [0]
  {
    ZeroBits(s, 7);
    ZerosSplit(7, 1);
    FeedLast(s, Zeros(7), 0);
    var p := Feed(s, Zeros(7)).state;
    ZeroDataByte(p);
    ShiftZero(p.bitstream);
    assert ByteOf(1) == 0;
  }

  /** n zero bytes are stored while they fit. */
  lemma {:induction false} ZeroBytes(s: Deframer, n: nat)
    requires AtByte(s) && |s.rx| + n <= RxSize
    ensures Feed(s, Zeros(8 * n)).frames == [] && AtByte(Feed(s, Zeros(8 * n)).state)
    ensures Feed(s, Zeros(8 * n)).state.rx == s.rx + Zeros(n)
  {
    if n > 0 {
      ZeroBytes(s, n - 1);
      var p := Feed(s, Zeros(8 * (n - 1)));
      ZeroByte(p.state);
      ZeroBytesNext(s, n, p);
      ZerosSplit(n - 1, 1);
      assert s.rx + Zeros(n) == (s.rx + Zeros(n - 1)) + [0];
    }
  }

  /** One byte more of zeros continues from the state the others left. */
  lemma ZeroBytesNext(s: Deframer, n: nat, p: Fed)
    requires n > 0 && p == Feed(s, Zeros(8 * (n - 1))) && p.frames == [] && Feed(p.state, Zeros(8)).frames == []
    ensures Feed(s, Zeros(8 * n)) == Fed(Feed(p.state, Zeros(8)).state, [])
  {
    ZerosSplit(8 * (n - 1), 8);
    FeedAppend(s, Zeros(8 * (n - 1)), Zeros(8));
  }

  /** The flag as it is sent, first bit first. */
  const Flag: seq<bv8> := [0, 1, 1, 1, 1, 1, 1, 0]

  /** k ones in the low bits of the bit stream. */
  function Run(k: nat): bv8
  {
    if k == 0 then 0 else Shift(Run(k - 1), 1)
  }

  /** A zero and k < 6 ones end in fewer than six ones; one more one
    * makes a zero and k + 1 ones. */
  lemma OneAfterRun(bs: bv8, k: nat)
    requires k < 6 && bs & Run(k + 1) == Run(k)
    ensures bs & 0x3f != 0x3f && Shift(bs, 1) & Run(k + 2) == Run(k + 1)
  {
    if k == 0 {
    } else if k == 1 {
    } else if k == 2 {
    } else if k == 3 {
    } else if k == 4 {
    } else {
    }
  }

  /** A one after fewer than six ones is neither a flag, nor seven ones,
    * nor a stuffed bit. */
  lemma OneShift(bs: bv8)
    requires bs & 0x3f != 0x3f
    ensures var t := Shift(bs, 1); !IsFlag(t) && t & 0x7f != 0x7f && t & 0x3f != 0x3e && t & 1 == 1
  {
  }

  /** A one enters bit 8 of the bit buffer and leaves bit 0 as it was. */
  lemma EnterOne(bb: bv16, bs: bv8)
    requires bs & 1 == 1
    ensures Enter(bb, bs) == bb | 0x100 && (bb | 0x100) & 1 == bb & 1
  {
  }

  /** A one received after fewer than six ones, while the marker is
    * short of bit 0, is shifted into the bit buffer. */
  lemma OneDataBit(s: Deframer)
    requires s.receiving && s.bitstream & 0x3f != 0x3f && s.bitbuffer & 1 == 0
    ensures Step(s, 1) == Stepped(s.(bitstream := Shift(s.bitstream, 1), bitbuffer := Down(Enter(s.bitbuffer, Shift(s.bitstream, 1)))), None)
  {
    var t := s.(bitstream := Shift(s.bitstream, 1));
    OneShift(s.bitstream);
    EnterOne(s.bitbuffer, t.bitstream);
    DataBitShifts(t);
  }

  /** The bit buffer after a zero and k ones with the marker at 0x80. */
  function Fill(k: nat): (bb: bv16)
    ensures k < 6 ==> bb & 1 == 0
  {
    if k == 0 then 0x40
    else if k == 1 then 0xa0
    else if k == 2 then 0xd0
    else if k == 3 then 0xe8
    else if k == 4 then 0xf4
    else if k == 5 then 0xfa
    else if k == 6 then 0xfd
    else 0
  }

  /** Each one of the flag moves the marker down and sets bit 7. */
  lemma FillDown(k: nat)
    requires k < 6
    ensures Down(Fill(k) | 0x100) == Fill(k + 1)
  {
    if k == 0 {
      assert Down(0x140) == 0xa0;
    } else if k == 1 {
      assert Down(0x1a0) == 0xd0;
    } else if k == 2 {
      assert Down(0x1d0) == 0xe8;
    } else if k == 3 {
      assert Down(0x1e8) == 0xf4;
    } else if k == 4 {
      assert Down(0x1f4) == 0xfa;
    } else {
      assert Down(0x1fa) == 0xfd;
    }
  }

  /** The first k + 1 bits of a flag: a zero and k ones. */
  function FlagHead(k: nat): (r: seq<bv8>)
    ensures |r| == k + 1
  {
    if k == 0 then [0] else FlagHead(k - 1) + [1]
  }

  /** After the first k + 1 bits of a flag received from `s`: no frame,
    * still receiving the same bytes, the stream ends in a zero and k
    * ones, and the bit buffer is `Fill(k)`. */
  predicate FlagOnesHold(s: Deframer, k: nat, f: Fed)
  {
    f.frames == [] && f.state.receiving && f.state.rx == s.rx
    && f.state.bitstream & Run(k + 1) == Run(k) && f.state.bitbuffer == Fill(k)
  }

  /** The first k + 1 bits of a flag, received as data after a zero with
    * an empty bit buffer, complete no byte. */
  lemma {:induction false} FlagOnes(s: Deframer, k: nat)
    requires AtByte(s) && k <= 6
    ensures FlagOnesHold(s, k, Feed(s, FlagHead(k)))
  {
    if k == 0 {
      FlagFirst(s);
    } else {
      FlagOnes(s, k - 1);
      FlagNext(s, k);
    }
  }

  /** The opening zero of a flag is a data bit. */
  lemma FlagFirst(s: Deframer)
    requires AtByte(s)
    ensures FlagOnesHold(s, 0, Feed(s, FlagHead(0)))
  {
    assert FlagHead(0) == [] + [0];
    FeedLast(s, [], 0);
    ZeroDataBit(s);
    ShiftZero(s.bitstream);
    MarkerDown(1);
  }

  /** Each of the six ones of a flag is a data bit. */
  lemma FlagNext(s: Deframer, k: nat)
    requires 0 < k <= 6 && FlagOnesHold(s, k - 1, Feed(s, FlagHead(k - 1)))
    ensures FlagOnesHold(s, k, Feed(s, FlagHead(k)))
  {
    FeedLast(s, FlagHead(k - 1), 1);
    FlagOne(Feed(s, FlagHead(k - 1)).state, k);
  }

  /** The k-th one of a flag, after a zero and k - 1 ones. */
  lemma FlagOne(p: Deframer, k: nat)
    requires 0 < k <= 6 && p.receiving && p.bitstream & Run(k) == Run(k - 1) && p.bitbuffer == Fill(k - 1)
    ensures Step(p, 1).frame == None && Step(p, 1).next.receiving && Step(p, 1).next.rx == p.rx
    ensures Step(p, 1).next.bitstream & Run(k + 1) == Run(k) && Step(p, 1).next.bitbuffer == Fill(k)
  {
    OneAfterRun(p.bitstream, k - 1);
    OneDataBit(p);
    OneShift(p.bitstream);
    EnterOne(p.bitbuffer, Shift(p.bitstream, 1));
    FillDown(k - 1);
  }

  /** The flag is its head of a zero and six ones, then a zero. */
  lemma FlagHeadIsFlag()
    ensures Flag[..7] == FlagHead(6)
  {
    assert FlagHead(6) == [0, 1, 1, 1, 1, 1, 1];
  }

  /** A zero after a zero and six ones completes a flag. */
  lemma FlagAfterRun(bs: bv8)
    requires bs & 0x7f == 0x3f
    ensures IsFlag(Shift(bs, 0))
  {
  }

  /** The first seven bits of a flag arriving after a zero are data bits
    * for the moment; they complete no byte when the bit buffer was empty. */
  lemma FlagPrefix(s: Deframer)
    requires AtByte(s)
    ensures Feed(s, Flag[..7]).frames == [] && Feed(s, Flag[..7]).state.rx == s.rx
    ensures Feed(s, Flag[..7]).state.receiving && IsFlag(Shift(Feed(s, Flag[..7]).state.bitstream, 0))
  {
    FlagOnes(s, 6);
    FlagHeadIsFlag();
    FlagAfterRun(Feed(s, Flag[..7]).state.bitstream);
  }

  /** Without a flag, a deframer that is not receiving only shifts the bit in. */
  lemma IdleStep(s: Deframer, bit: bv8)
    requires !s.receiving && !IsFlag(Shift(s.bitstream, bit))
    ensures Step(s, bit) == Stepped(s.(bitstream := Shift(s.bitstream, bit)), None)
  {
  }

  /** Up to six ones shifted in from reset are no flag. */
  lemma ShortRun(k: nat)
    requires k <= 6
    ensures !IsFlag(Run(k))
  {
    if k == 0 {
    } else if k == 1 {
    } else if k == 2 {
    } else if k == 3 {
    } else if k == 4 {
    } else if k == 5 {
    } else {
    }
  }

  /** Waiting from reset, the first k + 1 bits of a flag only shift in. */
  lemma {:induction false} IdleFlagOnes(k: nat)
    requires k <= 6
    ensures Feed(Reset, FlagHead(k)) == Fed(Reset.(bitstream := Run(k)), [])
  {
    if k == 0 {
      assert FlagHead(0) == [] + [0];
      FeedLast(Reset, [], 0);
      assert Shift(0, 0) == 0;
      IdleStep(Reset, 0);
    } else {
      IdleFlagOnes(k - 1);
      FeedLast(Reset, FlagHead(k - 1), 1);
      ShortRun(k);
      IdleStep(Reset.(bitstream := Run(k - 1)), 1);
    }
  }

  /** A flag received while waiting starts a frame. */
  lemma FlagStarts()
    ensures Feed(Reset, Flag) == Fed(Deframer(0x7e, 0x80, true, []), [])
  {
    IdleFlagOnes(6);
    FlagHeadIsFlag();
    assert Flag == Flag[..7] + [0];
    FeedLast(Reset, Flag[..7], 0);
    assert Run(6) == 0x3f;
  }

  /** The index the terminating zero of ax25.cc:101 is written at, if a
    * flag completes a frame being received. */
  function TerminatorIndex(s: Deframer, bit: bv8): (r: Option<nat>)
    ensures r.Some? ==> r.value == |s.rx| && r.value > 2
  {
    if IsFlag(Shift(s.bitstream, bit)) && s.receiving && |s.rx| > 2 then Some(|s.rx|) else None
  }

  /** As written, a frame of exactly 512 bytes is accepted by the overrun
    * check (which aborts only a 513th byte), and the flag that closes it
    * writes the terminator at index 512, one past the end of the 512-byte
    * `_rxbuffer`: a flag, 512 zero bytes and a flag. */
  lemma OverrunWritesPastBuffer()
    ensures var s := Feed(Feed(Feed(Reset, Flag).state, Zeros(8 * RxSize)).state, Flag[..7]).state;
            TerminatorIndex(s, 0) == Some(RxSize)
  {
    FlagStarts();
    var s1 := Feed(Reset, Flag).state;
    ZeroBytes(s1, RxSize);
    var s2 := Feed(s1, Zeros(8 * RxSize)).state;
    FlagPrefix(s2);
  }

  /** The deframer node, with a receive buffer one byte longer than the
    * longest frame it stores, so that the terminator written when a frame
    * closes stays inside it. */
  class Ax25Node {
    var bitstream: bv8
    var bitbuffer: bv16
    var receiving: bool
    const rx: array<bv8>
    /** `_ptr - _rxbuffer`. */
    var ptr: nat
    /** The bytes stored so far, `rx[..ptr]`. */
    ghost var held: seq<bv8>

    ghost predicate Valid()
      reads this, rx
    {
      rx.Length == RxSize + 1 && ptr <= RxSize && held == rx[..ptr]
    }

    ghost function State(): Deframer
      reads this
    {
      Deframer(bitstream, bitbuffer, receiving, held)
    }

    constructor ()
      ensures Valid() && State() == Reset && fresh(rx)
    {
      bitstream, bitbuffer, receiving, ptr := 0, 0, false, 0;
      rx := new bv8[RxSize + 1];
      held := [];
    }

    /** `config`: ignored without a type; a type other than `uint8_t` is a
      * `ConfigError`; otherwise the deframer is reset and the output
      * configuration (bytes, rate 0, 512-byte buffers, one buffer) is
      * published. */
    method Configure(c: Config) returns (r: Result<Option<Config>>)
      requires Valid()
      modifies this`bitstream, this`bitbuffer, this`receiving, this`ptr, this`held
      ensures Valid()
      ensures !c.HasType() ==> r == Ok(None) && State() == old(State())
      ensures c.HasType() && c.sampleType != UInt8 ==> r == Err(ConfigError) && State() == old(State())
      ensures c.sampleType == UInt8 ==> r == Ok(Some(Config(UInt8, 0.0, RxSize, 1))) && State() == Reset
    {
      if !c.HasType() {
        return Ok(None);
      }
      if c.sampleType != UInt8 {
        return Err(ConfigError);
      }
      bitstream, bitbuffer, receiving, ptr, held := 0, 0, false, 0, [];
      r := Ok(Some(Config(UInt8, 0.0, RxSize, 1)));
    }

    /** One iteration of `process`'s loop. */
    method ProcessBit(bit: bv8) returns (frame: Option<seq<bv8>>)
      requires Valid()
      modifies this`bitstream, this`bitbuffer, this`receiving, this`ptr, this`held, rx
      ensures Valid()
      ensures State() == Step(old(State()), bit).next && frame == Step(old(State()), bit).frame
    {
      bitstream := Shift(bitstream, bit);
      if IsFlag(bitstream) {
        frame := CloseFrame();
      } else {
        frame := None;
        ReceiveBit(State());
      }
    }

    /** A flag: the zero terminator is written at `_ptr`, the frame is
      * passed on if its FCS is good, and a new frame starts. */
    method CloseFrame() returns (frame: Option<seq<bv8>>)
      requires Valid()
      modifies this`bitbuffer, this`receiving, this`ptr, this`held, rx
      ensures Valid()
      ensures frame == Completed(old(State()))
      ensures State() == Deframer(bitstream, 0x80, true, [])
    {
      frame := None;
      if receiving && ptr > 2 {
        rx[ptr] := 0;
        assert rx[..ptr] == held;
        var ok := CheckCrc(rx[..ptr]);
        if ok {
          frame := Some(rx[..ptr]);
        }
      }
      receiving, ptr, bitbuffer, held := true, 0, 0x80, [];
    }

    /** The part of `process`'s loop after the flag test. */
    method ReceiveBit(ghost s: Deframer)
      requires Valid() && State() == s
      modifies this`bitbuffer, this`receiving, this`ptr, this`held, rx
      ensures Valid()
      ensures State() == Receive(s)
    {
      if bitstream & 0x7f == 0x7f {
        receiving := false;
      } else if receiving && bitstream & 0x3f != 0x3e {
        var bb := Enter(bitbuffer, bitstream);
        if bb & 1 != 1 {
          ShiftIn(bb, s);
        } else if ptr >= RxSize {
          Overrun(bb, s);
        } else {
          StoreByte(bb, s);
        }
      }
    }

    /** The marker has not reached bit 0: the bit buffer moves down. */
    method ShiftIn(bb: bv16, ghost s: Deframer)
      requires Valid() && State() == s && s.receiving && s.bitstream & 0x7f != 0x7f && s.bitstream & 0x3f != 0x3e
      requires bb == Enter(s.bitbuffer, s.bitstream) && bb & 1 != 1
      modifies this`bitbuffer
      ensures Valid()
      ensures State() == Receive(s)
    {
      DataBitShifts(s);
      bitbuffer := Down(bb);
    }

    /** A byte completed with 512 already held aborts the frame. */
    method Overrun(bb: bv16, ghost s: Deframer)
      requires Valid() && State() == s && s.receiving && s.bitstream & 0x7f != 0x7f && s.bitstream & 0x3f != 0x3e
      requires bb == Enter(s.bitbuffer, s.bitstream) && bb & 1 == 1 && ptr >= RxSize
      modifies this`bitbuffer, this`receiving
      ensures Valid()
      ensures State() == Receive(s)
    {
      DataBitOverruns(s);
      bitbuffer, receiving := bb, false;
    }

    /** A completed byte is stored at `_ptr` and the bit buffer starts
      * over. */
    method StoreByte(bb: bv16, ghost s: Deframer)
      requires Valid() && State() == s && s.receiving && s.bitstream & 0x7f != 0x7f && s.bitstream & 0x3f != 0x3e
      requires bb == Enter(s.bitbuffer, s.bitstream) && bb & 1 == 1 && ptr < RxSize
      modifies this`bitbuffer, this`ptr, this`held, rx
      ensures Valid()
      ensures State() == Receive(s)
    {
      DataBitStores(s);
      rx[ptr] := ByteOf(bb);
      ptr := ptr + 1;
      held := held + [ByteOf(bb)];
      assert rx[..ptr] == held;
      bitbuffer := 0x80;
    }

    /** `process`: every bit of the buffer in turn; the frames returned are
      * the ones sent, in order. */
    method Process(bits: seq<bv8>) returns (frames: seq<seq<bv8>>)
      requires Valid()
      modifies this`bitstream, this`bitbuffer, this`receiving, this`ptr, this`held, rx
      ensures Valid()
      ensures Feed(old(State()), bits) == Fed(State(), frames)
    {
      ghost var s0 := State();
      frames := [];
      var i := 0;
      while i < |bits|
        invariant 0 <= i <= |bits| && Valid()
        invariant Feed(s0, bits[..i]) == Fed(State(), frames)
      {
        assert bits[..i + 1][..i] == bits[..i];
        var f := ProcessBit(bits[i]);
        if f.Some? {
          frames := frames + [f.value];
        }
        i := i + 1;
      }
      assert bits[..i] == bits;
    }
  }

  // ---------------------------------------------------------------------
  // Addresses

  /** A callsign with its SSID and the address-extension flag. */
  datatype Address = Address(call: string, ssid: int, addrExt: bool)

  /** A callsign character from its address byte: the byte shifted right
    * by one, i.e. halved. */
  function CallChar(x: bv8): (c: char)
    ensures c as int < 128
  {
    ((x as int) / 2) as char
  }

  /** The address byte of a callsign character. */
  function CallByte(c: char): bv8
    requires c as int < 128
  {
    ToByte(2 * c as int)
  }

  /** The byte of a number below 256, built bit by bit from the top. */
  function ToByte(n: nat): bv8
    requires n < 256
  {
    if n == 0 then 0 else Append(ToByte(n / 2), n % 2 == 1)
  }

  /** A byte shifted left with one more bit at the bottom. */
  function Append(b: bv8, one: bool): bv8 { (b << 1) | (if one then 1 else 0) }

  lemma {:induction false} ToByteValue(n: nat)
    requires n < 256
    ensures ToByte(n) as int == n
  {
    if n > 0 {
      ToByteValue(n / 2);
      AppendValue(ToByte(n / 2), n % 2 == 1);
    }
  }

  lemma AppendValue(b: bv8, one: bool)
    requires b < 128
    ensures Append(b, one) as int == 2 * b as int + (if one then 1 else 0)
  {
  }

  function CountNonSpace(s: string): (n: nat)
    ensures n <= |s|
  {
    if s == [] then 0 else (if s[0] != ' ' then 1 else 0) + CountNonSpace(s[1..])
  }

  /** The SSID held in bits 1-4 of an SSID byte. */
  function SsidOf(x: bv8): (ssid: int)
    ensures 0 <= ssid < 16
  {
    ((x & 0x1f) >> 1) as int
  }

  /** The SSID byte 011SSSSx, with x = 1 on the last address. */
  function SsidByte(ssid: int, more: bool): bv8
    requires 0 <= ssid < 16
  {
    0x60 | (ssid as bv8 << 1) | (if more then 0 else 1)
  }

  /** `unpackCall`: the six callsign characters are the first six bytes
    * shifted right by one; the callsign keeps as many leading characters
    * as there are non-space ones; the SSID is bits 1-4 of the seventh byte
    * and the extension flag is set when its bit 0 is clear. */
  function UnpackCall(b: seq<bv8>): (a: Address)
    requires |b| >= 7
    ensures |a.call| <= 6 && 0 <= a.ssid < 16
    ensures forall i :: 0 <= i < |a.call| ==> a.call[i] as int < 128
    ensures a.addrExt <==> b[6] & 1 == 0
  {
    var chars := seq(6, i requires 0 <= i < 6 => CallChar(b[i]));
    Address(chars[..CountNonSpace(chars)], SsidOf(b[6]), b[6] & 1 == 0)
  }

  /** The address field of section 3.12 of AX.25 2.2: the callsign padded
    * with spaces to six characters, each shifted left by one, then the
    * SSID byte. */
  function PackCall(call: string, ssid: int, more: bool): (b: seq<bv8>)
    requires |call| <= 6 && 0 <= ssid < 16
    requires forall i :: 0 <= i < |call| ==> call[i] as int < 128
    ensures |b| == 7
  {
    var padded := call + seq(6 - |call|, _ => ' ');
    seq(6, i requires 0 <= i < 6 => CallByte(padded[i])) + [SsidByte(ssid, more)]
  }

  /** A seven-bit character survives the shift left and back. */
  lemma CallRoundTrip(c: char)
    requires c as int < 128
    ensures CallChar(CallByte(c)) == c
  {
    ToByteValue(2 * c as int);
  }

  /** The SSID and the extension bit survive the SSID byte. */
  lemma SsidRoundTrip(ssid: int, more: bool)
    requires 0 <= ssid < 16
    ensures SsidOf(SsidByte(ssid, more)) == ssid
    ensures SsidByte(ssid, more) & 1 == 0 <==> more
  {
  }

  lemma {:induction false} CountPadded(call: string, k: nat)
    requires forall i :: 0 <= i < |call| ==> call[i] != ' '
    ensures CountNonSpace(call + seq(k, _ => ' ')) == |call|
    decreases |call| + k
  {
    if call != [] {
      assert (call + seq(k, _ => ' '))[1..] == call[1..] + seq(k, _ => ' ');
      CountPadded(call[1..], k);
    } else if k > 0 {
      assert (call + seq(k, _ => ' '))[1..] == call + seq(k - 1, _ => ' ');
      CountPadded(call, k - 1);
    }
  }

  /** Unpacking a packed address gives it back when the callsign has no
    * spaces of its own. */
  lemma UnpackPack(call: string, ssid: int, more: bool)
    requires |call| <= 6 && 0 <= ssid < 16
    requires forall i :: 0 <= i < |call| ==> call[i] as int < 128 && call[i] != ' '
    ensures UnpackCall(PackCall(call, ssid, more)) == Address(call, ssid, more)
  {
    var b := PackCall(call, ssid, more);
    var padded := call + seq(6 - |call|, _ => ' ');
    var chars := seq(6, i requires 0 <= i < 6 => CallChar(b[i]));
    forall i | 0 <= i < 6
      ensures chars[i] == padded[i]
    {
      assert b[i] == CallByte(padded[i]);
      CallRoundTrip(padded[i]);
    }
    assert chars == padded;
    CountPadded(call, 6 - |call|);
    assert chars[..|call|] == call;
    assert b[6] == SsidByte(ssid, more);
    SsidRoundTrip(ssid, more);
  }

  /** A space inside the callsign cuts it short: "A B" padded unpacks as
    * "A " (two non-space characters keep the first two). */
  lemma InnerSpaceTruncates()
    ensures UnpackCall(PackCall("A B", 0, false)).call == "A "
  {
    var b := PackCall("A B", 0, false);
    var chars := seq(6, i requires 0 <= i < 6 => CallChar(b[i]));
    forall i | 0 <= i < 6
      ensures chars[i] == "A B   "[i]
    {
      assert b[i] == CallByte("A B   "[i]);
      CallRoundTrip("A B   "[i]);
    }
    assert chars == "A B   ";
    assert CountNonSpace("A B   ") == 2;
  }
}
