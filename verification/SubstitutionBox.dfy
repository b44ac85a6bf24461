/**
  The substitution tables of aestab.c (FIPS 197 figures 7 and 14), one function a row, and what
  the 512 constants are: mutually inverse, and each entry the affine image of a field inverse.
*/
module SubstitutionBox {
  import opened GaloisField

  function SBoxRow0(n: bv8): bv8 {
    if n == 0x0 then 0x63 else if n == 0x1 then 0x7c else if n == 0x2 then 0x77 else if n == 0x3 then 0x7b else
    if n == 0x4 then 0xf2 else if n == 0x5 then 0x6b else if n == 0x6 then 0x6f else if n == 0x7 then 0xc5 else
    if n == 0x8 then 0x30 else if n == 0x9 then 0x01 else if n == 0xa then 0x67 else if n == 0xb then 0x2b else
    if n == 0xc then 0xfe else if n == 0xd then 0xd7 else if n == 0xe then 0xab else 0x76
  }

  function SBoxRow1(n: bv8): bv8 {
    if n == 0x0 then 0xca else if n == 0x1 then 0x82 else if n == 0x2 then 0xc9 else if n == 0x3 then 0x7d else
    if n == 0x4 then 0xfa else if n == 0x5 then 0x59 else if n == 0x6 then 0x47 else if n == 0x7 then 0xf0 else
    if n == 0x8 then 0xad else if n == 0x9 then 0xd4 else if n == 0xa then 0xa2 else if n == 0xb then 0xaf else
    if n == 0xc then 0x9c else if n == 0xd then 0xa4 else if n == 0xe then 0x72 else 0xc0
  }

  function SBoxRow2(n: bv8): bv8 {
    if n == 0x0 then 0xb7 else if n == 0x1 then 0xfd else if n == 0x2 then 0x93 else if n == 0x3 then 0x26 else
    if n == 0x4 then 0x36 else if n == 0x5 then 0x3f else if n == 0x6 then 0xf7 else if n == 0x7 then 0xcc else
    if n == 0x8 then 0x34 else if n == 0x9 then 0xa5 else if n == 0xa then 0xe5 else if n == 0xb then 0xf1 else
    if n == 0xc then 0x71 else if n == 0xd then 0xd8 else if n == 0xe then 0x31 else 0x15
  }

  function SBoxRow3(n: bv8): bv8 {
    if n == 0x0 then 0x04 else if n == 0x1 then 0xc7 else if n == 0x2 then 0x23 else if n == 0x3 then 0xc3 else
    if n == 0x4 then 0x18 else if n == 0x5 then 0x96 else if n == 0x6 then 0x05 else if n == 0x7 then 0x9a else
    if n == 0x8 then 0x07 else if n == 0x9 then 0x12 else if n == 0xa then 0x80 else if n == 0xb then 0xe2 else
    if n == 0xc then 0xeb else if n == 0xd then 0x27 else if n == 0xe then 0xb2 else 0x75
  }

  function SBoxRow4(n: bv8): bv8 {
    if n == 0x0 then 0x09 else if n == 0x1 then 0x83 else if n == 0x2 then 0x2c else if n == 0x3 then 0x1a else
    if n == 0x4 then 0x1b else if n == 0x5 then 0x6e else if n == 0x6 then 0x5a else if n == 0x7 then 0xa0 else
    if n == 0x8 then 0x52 else if n == 0x9 then 0x3b else if n == 0xa then 0xd6 else if n == 0xb then 0xb3 else
    if n == 0xc then 0x29 else if n == 0xd then 0xe3 else if n == 0xe then 0x2f else 0x84
  }

  function SBoxRow5(n: bv8): bv8 {
    if n == 0x0 then 0x53 else if n == 0x1 then 0xd1 else if n == 0x2 then 0x00 else if n == 0x3 then 0xed else
    if n == 0x4 then 0x20 else if n == 0x5 then 0xfc else if n == 0x6 then 0xb1 else if n == 0x7 then 0x5b else
    if n == 0x8 then 0x6a else if n == 0x9 then 0xcb else if n == 0xa then 0xbe else if n == 0xb then 0x39 else
    if n == 0xc then 0x4a else if n == 0xd then 0x4c else if n == 0xe then 0x58 else 0xcf
  }

  function SBoxRow6(n: bv8): bv8 {
    if n == 0x0 then 0xd0 else if n == 0x1 then 0xef else if n == 0x2 then 0xaa else if n == 0x3 then 0xfb else
    if n == 0x4 then 0x43 else if n == 0x5 then 0x4d else if n == 0x6 then 0x33 else if n == 0x7 then 0x85 else
    if n == 0x8 then 0x45 else if n == 0x9 then 0xf9 else if n == 0xa then 0x02 else if n == 0xb then 0x7f else
    if n == 0xc then 0x50 else if n == 0xd then 0x3c else if n == 0xe then 0x9f else 0xa8
  }

  function SBoxRow7(n: bv8): bv8 {
    if n == 0x0 then 0x51 else if n == 0x1 then 0xa3 else if n == 0x2 then 0x40 else if n == 0x3 then 0x8f else
    if n == 0x4 then 0x92 else if n == 0x5 then 0x9d else if n == 0x6 then 0x38 else if n == 0x7 then 0xf5 else
    if n == 0x8 then 0xbc else if n == 0x9 then 0xb6 else if n == 0xa then 0xda else if n == 0xb then 0x21 else
    if n == 0xc then 0x10 else if n == 0xd then 0xff else if n == 0xe then 0xf3 else 0xd2
  }

  function SBoxRow8(n: bv8): bv8 {
    if n == 0x0 then 0xcd else if n == 0x1 then 0x0c else if n == 0x2 then 0x13 else if n == 0x3 then 0xec else
    if n == 0x4 then 0x5f else if n == 0x5 then 0x97 else if n == 0x6 then 0x44 else if n == 0x7 then 0x17 else
    if n == 0x8 then 0xc4 else if n == 0x9 then 0xa7 else if n == 0xa then 0x7e else if n == 0xb then 0x3d else
    if n == 0xc then 0x64 else if n == 0xd then 0x5d else if n == 0xe then 0x19 else 0x73
  }

  function SBoxRow9(n: bv8): bv8 {
    if n == 0x0 then 0x60 else if n == 0x1 then 0x81 else if n == 0x2 then 0x4f else if n == 0x3 then 0xdc else
    if n == 0x4 then 0x22 else if n == 0x5 then 0x2a else if n == 0x6 then 0x90 else if n == 0x7 then 0x88 else
    if n == 0x8 then 0x46 else if n == 0x9 then 0xee else if n == 0xa then 0xb8 else if n == 0xb then 0x14 else
    if n == 0xc then 0xde else if n == 0xd then 0x5e else if n == 0xe then 0x0b else 0xdb
  }

  function SBoxRowA(n: bv8): bv8 {
    if n == 0x0 then 0xe0 else if n == 0x1 then 0x32 else if n == 0x2 then 0x3a else if n == 0x3 then 0x0a else
    if n == 0x4 then 0x49 else if n == 0x5 then 0x06 else if n == 0x6 then 0x24 else if n == 0x7 then 0x5c else
    if n == 0x8 then 0xc2 else if n == 0x9 then 0xd3 else if n == 0xa then 0xac else if n == 0xb then 0x62 else
    if n == 0xc then 0x91 else if n == 0xd then 0x95 else if n == 0xe then 0xe4 else 0x79
  }

  function SBoxRowB(n: bv8): bv8 {
    if n == 0x0 then 0xe7 else if n == 0x1 then 0xc8 else if n == 0x2 then 0x37 else if n == 0x3 then 0x6d else
    if n == 0x4 then 0x8d else if n == 0x5 then 0xd5 else if n == 0x6 then 0x4e else if n == 0x7 then 0xa9 else
    if n == 0x8 then 0x6c else if n == 0x9 then 0x56 else if n == 0xa then 0xf4 else if n == 0xb then 0xea else
    if n == 0xc then 0x65 else if n == 0xd then 0x7a else if n == 0xe then 0xae else 0x08
  }

  function SBoxRowC(n: bv8): bv8 {
    if n == 0x0 then 0xba else if n == 0x1 then 0x78 else if n == 0x2 then 0x25 else if n == 0x3 then 0x2e else
    if n == 0x4 then 0x1c else if n == 0x5 then 0xa6 else if n == 0x6 then 0xb4 else if n == 0x7 then 0xc6 else
    if n == 0x8 then 0xe8 else if n == 0x9 then 0xdd else if n == 0xa then 0x74 else if n == 0xb then 0x1f else
    if n == 0xc then 0x4b else if n == 0xd then 0xbd else if n == 0xe then 0x8b else 0x8a
  }

  function SBoxRowD(n: bv8): bv8 {
    if n == 0x0 then 0x70 else if n == 0x1 then 0x3e else if n == 0x2 then 0xb5 else if n == 0x3 then 0x66 else
    if n == 0x4 then 0x48 else if n == 0x5 then 0x03 else if n == 0x6 then 0xf6 else if n == 0x7 then 0x0e else
    if n == 0x8 then 0x61 else if n == 0x9 then 0x35 else if n == 0xa then 0x57 else if n == 0xb then 0xb9 else
    if n == 0xc then 0x86 else if n == 0xd then 0xc1 else if n == 0xe then 0x1d else 0x9e
  }

  function SBoxRowE(n: bv8): bv8 {
    if n == 0x0 then 0xe1 else if n == 0x1 then 0xf8 else if n == 0x2 then 0x98 else if n == 0x3 then 0x11 else
    if n == 0x4 then 0x69 else if n == 0x5 then 0xd9 else if n == 0x6 then 0x8e else if n == 0x7 then 0x94 else
    if n == 0x8 then 0x9b else if n == 0x9 then 0x1e else if n == 0xa then 0x87 else if n == 0xb then 0xe9 else
    if n == 0xc then 0xce else if n == 0xd then 0x55 else if n == 0xe then 0x28 else 0xdf
  }

  function SBoxRowF(n: bv8): bv8 {
    if n == 0x0 then 0x8c else if n == 0x1 then 0xa1 else if n == 0x2 then 0x89 else if n == 0x3 then 0x0d else
    if n == 0x4 then 0xbf else if n == 0x5 then 0xe6 else if n == 0x6 then 0x42 else if n == 0x7 then 0x68 else
    if n == 0x8 then 0x41 else if n == 0x9 then 0x99 else if n == 0xa then 0x2d else if n == 0xb then 0x0f else
    if n == 0xc then 0xb0 else if n == 0xd then 0x54 else if n == 0xe then 0xbb else 0x16
  }

  function SBox(x: bv8): bv8 {
    var r, n := x >> 4, x & 0x0f;
    if r == 0x0 then SBoxRow0(n) else if r == 0x1 then SBoxRow1(n) else if r == 0x2 then SBoxRow2(n) else if r == 0x3 then SBoxRow3(n) else
    if r == 0x4 then SBoxRow4(n) else if r == 0x5 then SBoxRow5(n) else if r == 0x6 then SBoxRow6(n) else if r == 0x7 then SBoxRow7(n) else
    if r == 0x8 then SBoxRow8(n) else if r == 0x9 then SBoxRow9(n) else if r == 0xa then SBoxRowA(n) else if r == 0xb then SBoxRowB(n) else
    if r == 0xc then SBoxRowC(n) else if r == 0xd then SBoxRowD(n) else if r == 0xe then SBoxRowE(n) else SBoxRowF(n)
  }

  function InvSBoxRow0(n: bv8): bv8 {
    if n == 0x0 then 0x52 else if n == 0x1 then 0x09 else if n == 0x2 then 0x6a else if n == 0x3 then 0xd5 else
    if n == 0x4 then 0x30 else if n == 0x5 then 0x36 else if n == 0x6 then 0xa5 else if n == 0x7 then 0x38 else
    if n == 0x8 then 0xbf else if n == 0x9 then 0x40 else if n == 0xa then 0xa3 else if n == 0xb then 0x9e else
    if n == 0xc then 0x81 else if n == 0xd then 0xf3 else if n == 0xe then 0xd7 else 0xfb
  }

  function InvSBoxRow1(n: bv8): bv8 {
    if n == 0x0 then 0x7c else if n == 0x1 then 0xe3 else if n == 0x2 then 0x39 else if n == 0x3 then 0x82 else
    if n == 0x4 then 0x9b else if n == 0x5 then 0x2f else if n == 0x6 then 0xff else if n == 0x7 then 0x87 else
    if n == 0x8 then 0x34 else if n == 0x9 then 0x8e else if n == 0xa then 0x43 else if n == 0xb then 0x44 else
    if n == 0xc then 0xc4 else if n == 0xd then 0xde else if n == 0xe then 0xe9 else 0xcb
  }

  function InvSBoxRow2(n: bv8): bv8 {
    if n == 0x0 then 0x54 else if n == 0x1 then 0x7b else if n == 0x2 then 0x94 else if n == 0x3 then 0x32 else
    if n == 0x4 then 0xa6 else if n == 0x5 then 0xc2 else if n == 0x6 then 0x23 else if n == 0x7 then 0x3d else
    if n == 0x8 then 0xee else if n == 0x9 then 0x4c else if n == 0xa then 0x95 else if n == 0xb then 0x0b else
    if n == 0xc then 0x42 else if n == 0xd then 0xfa else if n == 0xe then 0xc3 else 0x4e
  }

  function InvSBoxRow3(n: bv8): bv8 {
    if n == 0x0 then 0x08 else if n == 0x1 then 0x2e else if n == 0x2 then 0xa1 else if n == 0x3 then 0x66 else
    if n == 0x4 then 0x28 else if n == 0x5 then 0xd9 else if n == 0x6 then 0x24 else if n == 0x7 then 0xb2 else
    if n == 0x8 then 0x76 else if n == 0x9 then 0x5b else if n == 0xa then 0xa2 else if n == 0xb then 0x49 else
    if n == 0xc then 0x6d else if n == 0xd then 0x8b else if n == 0xe then 0xd1 else 0x25
  }

  function InvSBoxRow4(n: bv8): bv8 {
    if n == 0x0 then 0x72 else if n == 0x1 then 0xf8 else if n == 0x2 then 0xf6 else if n == 0x3 then 0x64 else
    if n == 0x4 then 0x86 else if n == 0x5 then 0x68 else if n == 0x6 then 0x98 else if n == 0x7 then 0x16 else
    if n == 0x8 then 0xd4 else if n == 0x9 then 0xa4 else if n == 0xa then 0x5c else if n == 0xb then 0xcc else
    if n == 0xc then 0x5d else if n == 0xd then 0x65 else if n == 0xe then 0xb6 else 0x92
  }

  function InvSBoxRow5(n: bv8): bv8 {
    if n == 0x0 then 0x6c else if n == 0x1 then 0x70 else if n == 0x2 then 0x48 else if n == 0x3 then 0x50 else
    if n == 0x4 then 0xfd else if n == 0x5 then 0xed else if n == 0x6 then 0xb9 else if n == 0x7 then 0xda else
    if n == 0x8 then 0x5e else if n == 0x9 then 0x15 else if n == 0xa then 0x46 else if n == 0xb then 0x57 else
    if n == 0xc then 0xa7 else if n == 0xd then 0x8d else if n == 0xe then 0x9d else 0x84
  }

  function InvSBoxRow6(n: bv8): bv8 {
    if n == 0x0 then 0x90 else if n == 0x1 then 0xd8 else if n == 0x2 then 0xab else if n == 0x3 then 0x00 else
    if n == 0x4 then 0x8c else if n == 0x5 then 0xbc else if n == 0x6 then 0xd3 else if n == 0x7 then 0x0a else
    if n == 0x8 then 0xf7 else if n == 0x9 then 0xe4 else if n == 0xa then 0x58 else if n == 0xb then 0x05 else
    if n == 0xc then 0xb8 else if n == 0xd then 0xb3 else if n == 0xe then 0x45 else 0x06
  }

  function InvSBoxRow7(n: bv8): bv8 {
    if n == 0x0 then 0xd0 else if n == 0x1 then 0x2c else if n == 0x2 then 0x1e else if n == 0x3 then 0x8f else
    if n == 0x4 then 0xca else if n == 0x5 then 0x3f else if n == 0x6 then 0x0f else if n == 0x7 then 0x02 else
    if n == 0x8 then 0xc1 else if n == 0x9 then 0xaf else if n == 0xa then 0xbd else if n == 0xb then 0x03 else
    if n == 0xc then 0x01 else if n == 0xd then 0x13 else if n == 0xe then 0x8a else 0x6b
  }

  function InvSBoxRow8(n: bv8): bv8 {
    if n == 0x0 then 0x3a else if n == 0x1 then 0x91 else if n == 0x2 then 0x11 else if n == 0x3 then 0x41 else
    if n == 0x4 then 0x4f else if n == 0x5 then 0x67 else if n == 0x6 then 0xdc else if n == 0x7 then 0xea else
    if n == 0x8 then 0x97 else if n == 0x9 then 0xf2 else if n == 0xa then 0xcf else if n == 0xb then 0xce else
    if n == 0xc then 0xf0 else if n == 0xd then 0xb4 else if n == 0xe then 0xe6 else 0x73
  }

  function InvSBoxRow9(n: bv8): bv8 {
    if n == 0x0 then 0x96 else if n == 0x1 then 0xac else if n == 0x2 then 0x74 else if n == 0x3 then 0x22 else
    if n == 0x4 then 0xe7 else if n == 0x5 then 0xad else if n == 0x6 then 0x35 else if n == 0x7 then 0x85 else
    if n == 0x8 then 0xe2 else if n == 0x9 then 0xf9 else if n == 0xa then 0x37 else if n == 0xb then 0xe8 else
    if n == 0xc then 0x1c else if n == 0xd then 0x75 else if n == 0xe then 0xdf else 0x6e
  }

  function InvSBoxRowA(n: bv8): bv8 {
    if n == 0x0 then 0x47 else if n == 0x1 then 0xf1 else if n == 0x2 then 0x1a else if n == 0x3 then 0x71 else
    if n == 0x4 then 0x1d else if n == 0x5 then 0x29 else if n == 0x6 then 0xc5 else if n == 0x7 then 0x89 else
    if n == 0x8 then 0x6f else if n == 0x9 then 0xb7 else if n == 0xa then 0x62 else if n == 0xb then 0x0e else
    if n == 0xc then 0xaa else if n == 0xd then 0x18 else if n == 0xe then 0xbe else 0x1b
  }

  function InvSBoxRowB(n: bv8): bv8 {
    if n == 0x0 then 0xfc else if n == 0x1 then 0x56 else if n == 0x2 then 0x3e else if n == 0x3 then 0x4b else
    if n == 0x4 then 0xc6 else if n == 0x5 then 0xd2 else if n == 0x6 then 0x79 else if n == 0x7 then 0x20 else
    if n == 0x8 then 0x9a else if n == 0x9 then 0xdb else if n == 0xa then 0xc0 else if n == 0xb then 0xfe else
    if n == 0xc then 0x78 else if n == 0xd then 0xcd else if n == 0xe then 0x5a else 0xf4
  }

  function InvSBoxRowC(n: bv8): bv8 {
    if n == 0x0 then 0x1f else if n == 0x1 then 0xdd else if n == 0x2 then 0xa8 else if n == 0x3 then 0x33 else
    if n == 0x4 then 0x88 else if n == 0x5 then 0x07 else if n == 0x6 then 0xc7 else if n == 0x7 then 0x31 else
    if n == 0x8 then 0xb1 else if n == 0x9 then 0x12 else if n == 0xa then 0x10 else if n == 0xb then 0x59 else
    if n == 0xc then 0x27 else if n == 0xd then 0x80 else if n == 0xe then 0xec else 0x5f
  }

  function InvSBoxRowD(n: bv8): bv8 {
    if n == 0x0 then 0x60 else if n == 0x1 then 0x51 else if n == 0x2 then 0x7f else if n == 0x3 then 0xa9 else
    if n == 0x4 then 0x19 else if n == 0x5 then 0xb5 else if n == 0x6 then 0x4a else if n == 0x7 then 0x0d else
    if n == 0x8 then 0x2d else if n == 0x9 then 0xe5 else if n == 0xa then 0x7a else if n == 0xb then 0x9f else
    if n == 0xc then 0x93 else if n == 0xd then 0xc9 else if n == 0xe then 0x9c else 0xef
  }

  function InvSBoxRowE(n: bv8): bv8 {
    if n == 0x0 then 0xa0 else if n == 0x1 then 0xe0 else if n == 0x2 then 0x3b else if n == 0x3 then 0x4d else
    if n == 0x4 then 0xae else if n == 0x5 then 0x2a else if n == 0x6 then 0xf5 else if n == 0x7 then 0xb0 else
    if n == 0x8 then 0xc8 else if n == 0x9 then 0xeb else if n == 0xa then 0xbb else if n == 0xb then 0x3c else
    if n == 0xc then 0x83 else if n == 0xd then 0x53 else if n == 0xe then 0x99 else 0x61
  }

  function InvSBoxRowF(n: bv8): bv8 {
    if n == 0x0 then 0x17 else if n == 0x1 then 0x2b else if n == 0x2 then 0x04 else if n == 0x3 then 0x7e else
    if n == 0x4 then 0xba else if n == 0x5 then 0x77 else if n == 0x6 then 0xd6 else if n == 0x7 then 0x26 else
    if n == 0x8 then 0xe1 else if n == 0x9 then 0x69 else if n == 0xa then 0x14 else if n == 0xb then 0x63 else
    if n == 0xc then 0x55 else if n == 0xd then 0x21 else if n == 0xe then 0x0c else 0x7d
  }

  function InvSBox(x: bv8): bv8 {
    var r, n := x >> 4, x & 0x0f;
    if r == 0x0 then InvSBoxRow0(n) else if r == 0x1 then InvSBoxRow1(n) else if r == 0x2 then InvSBoxRow2(n) else if r == 0x3 then InvSBoxRow3(n) else
    if r == 0x4 then InvSBoxRow4(n) else if r == 0x5 then InvSBoxRow5(n) else if r == 0x6 then InvSBoxRow6(n) else if r == 0x7 then InvSBoxRow7(n) else
    if r == 0x8 then InvSBoxRow8(n) else if r == 0x9 then InvSBoxRow9(n) else if r == 0xa then InvSBoxRowA(n) else if r == 0xb then InvSBoxRowB(n) else
    if r == 0xc then InvSBoxRowC(n) else if r == 0xd then InvSBoxRowD(n) else if r == 0xe then InvSBoxRowE(n) else InvSBoxRowF(n)
  }

  // The affine step of the S-box and its inverse, as aestab.c computes them in 32-bit words.

  function FwdAffine(x: bv8): bv8 {
    var w0 := x as bv32;
    var w := w0 ^ (w0 << 1) ^ (w0 << 2) ^ (w0 << 3) ^ (w0 << 4);
    0x63 ^ ((w ^ (w >> 8)) & 0xff) as bv8
  }

  function InvAffine(x: bv8): bv8 {
    var w0 := x as bv32;
    var w := (w0 << 1) ^ (w0 << 3) ^ (w0 << 6);
    0x05 ^ ((w ^ (w >> 8)) & 0xff) as bv8
  }

  lemma AffineInverse(x: bv8)
    ensures InvAffine(FwdAffine(x)) == x && FwdAffine(InvAffine(x)) == x
  {
  }

  // Every entry undoes to the multiplicative inverse of its index (and 0 to 0).
  lemma SBoxInvertsInField(x: bv8)
    ensures Mul(x, InvAffine(SBox(x))) == (if x == 0 then 0 else 1)
    ensures x == 0 ==> InvAffine(SBox(x)) == 0
  {
  }

  lemma InvSBoxInverse(x: bv8)
    ensures InvSBox(SBox(x)) == x
  {
  }

  lemma SBoxInverse(y: bv8)
    ensures SBox(InvSBox(y)) == y
  {
  }
}
