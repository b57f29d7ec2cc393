/** Packets and control codes (stdsc/stdsc_packet.hpp, stdsc/stdsc_packet.cpp). */
module Packets {
  import opened Bytes

  const BODY_SIZE: nat := 1024
  const PACKET_SIZE: nat := 1032

  const NIL: uint64 := 0x0
  const ACCEPT: uint64 := 0x0101
  const REJECT: uint64 := 0x0102
  const FAILED: uint64 := 0x0103
  const GROUP_REQUEST: uint64 := 0x0200
  const GROUP_DATA: uint64 := 0x0400
  const GROUP_DOWNLOAD: uint64 := 0x0800
  const GROUP_UPDOWNLOAD: uint64 := 0x1000

  datatype Group = Request | Data | Download | UpDownload

  /** A packet is its memory image: a control code and the body union, as `send_packet`
      writes it and `recv_packet` fills it. */
  type Packet = s: seq<byte> | |s| == PACKET_SIZE
    witness seq(1032, _ => 0)

  function Zeros(n: nat): (s: seq<byte>)
    ensures |s| == n && forall i :: 0 <= i < n ==> s[i] == 0
  {
    seq(n, _ => 0)
  }

  /** `code & mask` for a mask of a single bit. */
  predicate HasBit(code: uint64, mask: uint64)
    requires mask > 0
  {
    (code / mask) % 2 == 1
  }

  lemma {:induction false} MoreIsLonger(unit: nat, a: nat, b: nat)
    requires a < b
    ensures unit * b >= unit * a + unit
    decreases b
  {
    assert unit * b == unit * (b - 1) + unit;
    if a < b - 1 {
      MoreIsLonger(unit, a, b - 1);
    }
  }

  lemma Quotient(code: nat, unit: nat, q: nat, low: nat)
    requires low < unit && code == unit * q + low
    ensures code / unit == q
  {
    var k := code / unit;
    assert code == unit * k + code % unit;
    if k < q {
      MoreIsLonger(unit, k, q);
    } else if q < k {
      MoreIsLonger(unit, q, k);
    }
  }

  /** A code is `high` in the bits above the mask, `bit` in that of the mask and `low` in those
      below it. */
  lemma BitOf(code: uint64, mask: uint64, high: nat, bit: nat, low: nat)
    requires bit <= 1 && low < mask && code == mask * (2 * high + bit) + low
    ensures HasBit(code, mask) <==> bit == 1
  {
    Quotient(code, mask, 2 * high + bit, low);
  }

  /** The branch that `CallbackFunctionContainer::eval` takes: the first group bit that is set. */
  function GroupOf(code: uint64): Option<Group> {
    if HasBit(code, GROUP_REQUEST) then Some(Request)
    else if HasBit(code, GROUP_DATA) then Some(Data)
    else if HasBit(code, GROUP_DOWNLOAD) then Some(Download)
    else if HasBit(code, GROUP_UPDOWNLOAD) then Some(UpDownload)
    else None
  }

  function GroupBase(g: Group): uint64 {
    match g
    case Request => GROUP_REQUEST
    case Data => GROUP_DATA
    case Download => GROUP_DOWNLOAD
    case UpDownload => GROUP_UPDOWNLOAD
  }

  /** The range of codes the header documents for a group. */
  predicate InRange(code: uint64, g: Group) {
    GroupBase(g) <= code <= GroupBase(g) + 0xFF
  }

  /** Inside the documented ranges the dispatch never takes another group's branch. */
  lemma DispatchIsExact(code: uint64, g: Group)
    requires InRange(code, g)
    ensures GroupOf(code) == Some(g)
    ensures g.Data? || g.UpDownload? <==> MayCarryData(code)
  {
  }

  /** Of several group bits the lowest decides. */
  lemma LowestGroupBit(code: uint64, g: Group)
    ensures GroupOf(code) == Some(g) <==>
            HasBit(code, GroupBase(g)) && forall h: Group :: GroupBase(h) < GroupBase(g) ==> !HasBit(code, GroupBase(h))
    ensures GroupOf(code) == None <==> forall h: Group :: !HasBit(code, GroupBase(h))
  {
    assert HasBit(code, GroupBase(Request)) == HasBit(code, GROUP_REQUEST);
    assert HasBit(code, GroupBase(Data)) == HasBit(code, GROUP_DATA);
    assert HasBit(code, GroupBase(Download)) == HasBit(code, GROUP_DOWNLOAD);
    assert HasBit(code, GroupBase(UpDownload)) == HasBit(code, GROUP_UPDOWNLOAD);
  }

  /** The check of `make_data_packet`. */
  predicate MayCarryData(code: uint64) {
    HasBit(code, GROUP_DATA) || HasBit(code, GROUP_UPDOWNLOAD)
  }

  function Code(p: Packet): uint64 {
    DecodeU64(p[..8])
  }

  /** `data.size` and `enum_field.val` are the same eight bytes of the union. */
  function DataSize(p: Packet): uint64 {
    DecodeU64(p[8..16])
  }

  /** The dispatch reads a body for the two groups that upload. */
  predicate CarriesBuffer(p: Packet) {
    GroupOf(Code(p)) == Some(Data) || GroupOf(Code(p)) == Some(UpDownload)
  }

  function EnumFieldPacket(code: uint64, val: uint64): (p: Packet)
    ensures Code(p) == code && DataSize(p) == val
  {
    var image := EncodeU64(code) + EncodeU64(val) + Zeros(BODY_SIZE - 8);
    assert image[..8] == EncodeU64(code);
    assert image[8..16] == EncodeU64(val);
    image
  }

  function MakePacket(code: uint64): (p: Packet)
    ensures Code(p) == code && DataSize(p) == 0
  {
    EnumFieldPacket(code, 0)
  }

  /** None stands for the InvariantException of `make_data_packet`. */
  function MakeDataPacket(code: uint64, size: uint64): (p: Option<Packet>)
    ensures p.Some? <==> MayCarryData(code)
    ensures p.Some? ==> Code(p.value) == code && DataSize(p.value) == size
  {
    if MayCarryData(code) then Some(EnumFieldPacket(code, size)) else None
  }

  /** The rest of the body is filled with zeros. */
  lemma PaddingIsZero(code: uint64, val: uint64, k: nat)
    requires 16 <= k < PACKET_SIZE
    ensures EnumFieldPacket(code, val)[k] == 0
  {
  }

  /** A data packet can be made for every code with one of two group bits, also if the dispatch
      takes the branch of a lower one. */
  lemma DataPacketIff(code: uint64, size: uint64)
    ensures MakeDataPacket(code, size).Some? <==>
            HasBit(code, GroupBase(Data)) || HasBit(code, GroupBase(UpDownload))
  {
  }
}
