/**
  The CRC-16 lookup table shared by the ARM firmware and the uploader.

  The 256 constants are listed row by row as in the C array.  Every row promises that
  each of its entries is what eight bit-serial steps of the Rocksoft model (width 16,
  polynomial 0x1021, not reflected) leave of the index placed in the top byte.
*/
module CrcTables {

  // One step of the bit-serial register fed with a zero bit.
  function ZeroStep(reg: bv16): bv16 {
    if reg & 0x8000 != 0 then (reg << 1) ^ 0x1021 else reg << 1
  }

  function EightZeroSteps(reg: bv16): bv16 {
    ZeroStep(ZeroStep(ZeroStep(ZeroStep(ZeroStep(ZeroStep(ZeroStep(ZeroStep(reg))))))))
  }

  function CrcTable(i: bv8): (w: bv16)
    ensures w == EightZeroSteps((i as bv16) << 8)
  {
    match i >> 4
    case 0 => Row0(i & 0x0F) case 1 => Row1(i & 0x0F) case 2 => Row2(i & 0x0F) case 3 => Row3(i & 0x0F)
    case 4 => Row4(i & 0x0F) case 5 => Row5(i & 0x0F) case 6 => Row6(i & 0x0F) case 7 => Row7(i & 0x0F)
    case 8 => Row8(i & 0x0F) case 9 => Row9(i & 0x0F) case 10 => RowA(i & 0x0F) case 11 => RowB(i & 0x0F)
    case 12 => RowC(i & 0x0F) case 13 => RowD(i & 0x0F) case 14 => RowE(i & 0x0F) case _ => RowF(i & 0x0F)
  }

  function Row0(lo: bv8): (w: bv16)
    requires lo < 16
    ensures w == EightZeroSteps(((0x00 | lo) as bv16) << 8)
  {
    match lo
    case 0 => 0x0000 case 1 => 0x1021 case 2 => 0x2042 case 3 => 0x3063
    case 4 => 0x4084 case 5 => 0x50A5 case 6 => 0x60C6 case 7 => 0x70E7
    case 8 => 0x8108 case 9 => 0x9129 case 10 => 0xA14A case 11 => 0xB16B
    case 12 => 0xC18C case 13 => 0xD1AD case 14 => 0xE1CE case _ => 0xF1EF
  }

  function Row1(lo: bv8): (w: bv16)
    requires lo < 16
    ensures w == EightZeroSteps(((0x10 | lo) as bv16) << 8)
  {
    match lo
    case 0 => 0x1231 case 1 => 0x0210 case 2 => 0x3273 case 3 => 0x2252
    case 4 => 0x52B5 case 5 => 0x4294 case 6 => 0x72F7 case 7 => 0x62D6
    case 8 => 0x9339 case 9 => 0x8318 case 10 => 0xB37B case 11 => 0xA35A
    case 12 => 0xD3BD case 13 => 0xC39C case 14 => 0xF3FF case _ => 0xE3DE
  }

  function Row2(lo: bv8): (w: bv16)
    requires lo < 16
    ensures w == EightZeroSteps(((0x20 | lo) as bv16) << 8)
  {
    match lo
    case 0 => 0x2462 case 1 => 0x3443 case 2 => 0x0420 case 3 => 0x1401
    case 4 => 0x64E6 case 5 => 0x74C7 case 6 => 0x44A4 case 7 => 0x5485
    case 8 => 0xA56A case 9 => 0xB54B case 10 => 0x8528 case 11 => 0x9509
    case 12 => 0xE5EE case 13 => 0xF5CF case 14 => 0xC5AC case _ => 0xD58D
  }

  function Row3(lo: bv8): (w: bv16)
    requires lo < 16
    ensures w == EightZeroSteps(((0x30 | lo) as bv16) << 8)
  {
    match lo
    case 0 => 0x3653 case 1 => 0x2672 case 2 => 0x1611 case 3 => 0x0630
    case 4 => 0x76D7 case 5 => 0x66F6 case 6 => 0x5695 case 7 => 0x46B4
    case 8 => 0xB75B case 9 => 0xA77A case 10 => 0x9719 case 11 => 0x8738
    case 12 => 0xF7DF case 13 => 0xE7FE case 14 => 0xD79D case _ => 0xC7BC
  }

  function Row4(lo: bv8): (w: bv16)
    requires lo < 16
    ensures w == EightZeroSteps(((0x40 | lo) as bv16) << 8)
  {
    match lo
    case 0 => 0x48C4 case 1 => 0x58E5 case 2 => 0x6886 case 3 => 0x78A7
    case 4 => 0x0840 case 5 => 0x1861 case 6 => 0x2802 case 7 => 0x3823
    case 8 => 0xC9CC case 9 => 0xD9ED case 10 => 0xE98E case 11 => 0xF9AF
    case 12 => 0x8948 case 13 => 0x9969 case 14 => 0xA90A case _ => 0xB92B
  }

  function Row5(lo: bv8): (w: bv16)
    requires lo < 16
    ensures w == EightZeroSteps(((0x50 | lo) as bv16) << 8)
  {
    match lo
    case 0 => 0x5AF5 case 1 => 0x4AD4 case 2 => 0x7AB7 case 3 => 0x6A96
    case 4 => 0x1A71 case 5 => 0x0A50 case 6 => 0x3A33 case 7 => 0x2A12
    case 8 => 0xDBFD case 9 => 0xCBDC case 10 => 0xFBBF case 11 => 0xEB9E
    case 12 => 0x9B79 case 13 => 0x8B58 case 14 => 0xBB3B case _ => 0xAB1A
  }

  function Row6(lo: bv8): (w: bv16)
    requires lo < 16
    ensures w == EightZeroSteps(((0x60 | lo) as bv16) << 8)
  {
    match lo
    case 0 => 0x6CA6 case 1 => 0x7C87 case 2 => 0x4CE4 case 3 => 0x5CC5
    case 4 => 0x2C22 case 5 => 0x3C03 case 6 => 0x0C60 case 7 => 0x1C41
    case 8 => 0xEDAE case 9 => 0xFD8F case 10 => 0xCDEC case 11 => 0xDDCD
    case 12 => 0xAD2A case 13 => 0xBD0B case 14 => 0x8D68 case _ => 0x9D49
  }

  function Row7(lo: bv8): (w: bv16)
    requires lo < 16
    ensures w == EightZeroSteps(((0x70 | lo) as bv16) << 8)
  {
    match lo
    case 0 => 0x7E97 case 1 => 0x6EB6 case 2 => 0x5ED5 case 3 => 0x4EF4
    case 4 => 0x3E13 case 5 => 0x2E32 case 6 => 0x1E51 case 7 => 0x0E70
    case 8 => 0xFF9F case 9 => 0xEFBE case 10 => 0xDFDD case 11 => 0xCFFC
    case 12 => 0xBF1B case 13 => 0xAF3A case 14 => 0x9F59 case _ => 0x8F78
  }

  function Row8(lo: bv8): (w: bv16)
    requires lo < 16
    ensures w == EightZeroSteps(((0x80 | lo) as bv16) << 8)
  {
    match lo
    case 0 => 0x9188 case 1 => 0x81A9 case 2 => 0xB1CA case 3 => 0xA1EB
    case 4 => 0xD10C case 5 => 0xC12D case 6 => 0xF14E case 7 => 0xE16F
    case 8 => 0x1080 case 9 => 0x00A1 case 10 => 0x30C2 case 11 => 0x20E3
    case 12 => 0x5004 case 13 => 0x4025 case 14 => 0x7046 case _ => 0x6067
  }

  function Row9(lo: bv8): (w: bv16)
    requires lo < 16
    ensures w == EightZeroSteps(((0x90 | lo) as bv16) << 8)
  {
    match lo
    case 0 => 0x83B9 case 1 => 0x9398 case 2 => 0xA3FB case 3 => 0xB3DA
    case 4 => 0xC33D case 5 => 0xD31C case 6 => 0xE37F case 7 => 0xF35E
    case 8 => 0x02B1 case 9 => 0x1290 case 10 => 0x22F3 case 11 => 0x32D2
    case 12 => 0x4235 case 13 => 0x5214 case 14 => 0x6277 case _ => 0x7256
  }

  function RowA(lo: bv8): (w: bv16)
    requires lo < 16
    ensures w == EightZeroSteps(((0xA0 | lo) as bv16) << 8)
  {
    match lo
    case 0 => 0xB5EA case 1 => 0xA5CB case 2 => 0x95A8 case 3 => 0x8589
    case 4 => 0xF56E case 5 => 0xE54F case 6 => 0xD52C case 7 => 0xC50D
    case 8 => 0x34E2 case 9 => 0x24C3 case 10 => 0x14A0 case 11 => 0x0481
    case 12 => 0x7466 case 13 => 0x6447 case 14 => 0x5424 case _ => 0x4405
  }

  function RowB(lo: bv8): (w: bv16)
    requires lo < 16
    ensures w == EightZeroSteps(((0xB0 | lo) as bv16) << 8)
  {
    match lo
    case 0 => 0xA7DB case 1 => 0xB7FA case 2 => 0x8799 case 3 => 0x97B8
    case 4 => 0xE75F case 5 => 0xF77E case 6 => 0xC71D case 7 => 0xD73C
    case 8 => 0x26D3 case 9 => 0x36F2 case 10 => 0x0691 case 11 => 0x16B0
    case 12 => 0x6657 case 13 => 0x7676 case 14 => 0x4615 case _ => 0x5634
  }

  function RowC(lo: bv8): (w: bv16)
    requires lo < 16
    ensures w == EightZeroSteps(((0xC0 | lo) as bv16) << 8)
  {
    match lo
    case 0 => 0xD94C case 1 => 0xC96D case 2 => 0xF90E case 3 => 0xE92F
    case 4 => 0x99C8 case 5 => 0x89E9 case 6 => 0xB98A case 7 => 0xA9AB
    case 8 => 0x5844 case 9 => 0x4865 case 10 => 0x7806 case 11 => 0x6827
    case 12 => 0x18C0 case 13 => 0x08E1 case 14 => 0x3882 case _ => 0x28A3
  }

  function RowD(lo: bv8): (w: bv16)
    requires lo < 16
    ensures w == EightZeroSteps(((0xD0 | lo) as bv16) << 8)
  {
    match lo
    case 0 => 0xCB7D case 1 => 0xDB5C case 2 => 0xEB3F case 3 => 0xFB1E
    case 4 => 0x8BF9 case 5 => 0x9BD8 case 6 => 0xABBB case 7 => 0xBB9A
    case 8 => 0x4A75 case 9 => 0x5A54 case 10 => 0x6A37 case 11 => 0x7A16
    case 12 => 0x0AF1 case 13 => 0x1AD0 case 14 => 0x2AB3 case _ => 0x3A92
  }

  function RowE(lo: bv8): (w: bv16)
    requires lo < 16
    ensures w == EightZeroSteps(((0xE0 | lo) as bv16) << 8)
  {
    match lo
    case 0 => 0xFD2E case 1 => 0xED0F case 2 => 0xDD6C case 3 => 0xCD4D
    case 4 => 0xBDAA case 5 => 0xAD8B case 6 => 0x9DE8 case 7 => 0x8DC9
    case 8 => 0x7C26 case 9 => 0x6C07 case 10 => 0x5C64 case 11 => 0x4C45
    case 12 => 0x3CA2 case 13 => 0x2C83 case 14 => 0x1CE0 case _ => 0x0CC1
  }

  function RowF(lo: bv8): (w: bv16)
    requires lo < 16
    ensures w == EightZeroSteps(((0xF0 | lo) as bv16) << 8)
  {
    match lo
    case 0 => 0xEF1F case 1 => 0xFF3E case 2 => 0xCF5D case 3 => 0xDF7C
    case 4 => 0xAF9B case 5 => 0xBFBA case 6 => 0x8FD9 case 7 => 0x9FF8
    case 8 => 0x6E17 case 9 => 0x7E36 case 10 => 0x4E55 case 11 => 0x5E74
    case 12 => 0x2E93 case 13 => 0x3EB2 case 14 => 0x0ED1 case _ => 0x1EF0
  }
}
