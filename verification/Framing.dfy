// The bytes on bulk endpoint 0x04: the transmit descriptors of mt76_init.h, the MCU command packet, the 802.11
// packet and the GIP packet that rides in an MCU command. Every packet is paired with a decoder that follows the
// documented bit positions, not the order in which the builder writes.

module Framing {
  import opened Bytes
  import opened DaemonModel

  const CPU_TX_PORT: nat := 2
  const CMD_PACKET_TX: byte := 0
  const TXWI_SIZE: nat := 20
  const MAX_FRAME: nat := 2048
  const GIP_PAYLOAD_SIZE: nat := 156

  // ---------------------------------------------------------------- descriptors

  /** The five fields of a descriptor word: bits 0-15, 16-19, 20-26, 27-29 and 30-31. */
  datatype TxInfo = TxInfo(length: u16, sequence: nat, command: nat, port: nat, kind: nat)

  function DecodeTxInfo(w: u32): TxInfo {
    TxInfo(w % 0x1_0000, w / 0x1_0000 % 16, w / 0x10_0000 % 128, w / 0x800_0000 % 8, w / 0x4000_0000)
  }

  /** `mt76_make_txinfo_cmd` and `mt76_make_txinfo_fw`. Each OR joins disjoint bits (FieldsAreDisjoint), so it is a
      sum. */
  function TxInfoCmd(cmd: byte, len: u16): u32 { len + 0x10_0000 * cmd + 0x800_0000 * CPU_TX_PORT + 0x4000_0000 }

  function TxInfoFw(len: u16): u32 { len + 0x800_0000 * CPU_TX_PORT }

  /** The descriptor of an 802.11 packet: is80211 (bit 19), wiv (bit 24), queue EDCA (2 in bits 25-26). */
  function TxInfoWlan(len: u16): u32 { len + 0x8_0000 + 0x100_0000 + 2 * 0x200_0000 }

  lemma FieldsAreDisjoint(len: bv32, cmd: bv32)
    requires len < 0x1_0000 && cmd < 0x100
    ensures len | (0 << 16) | (cmd << 20) | ((2 as bv32) << 27) | ((1 as bv32) << 30) ==
            len + (cmd << 20) + 0x1000_0000 + 0x4000_0000
  {
  }

  lemma FixedFieldsAreDisjoint(len: bv32)
    requires len < 0x1_0000
    ensures len | ((2 as bv32) << 27) | ((0 as bv32) << 30) == len + 0x1000_0000
    ensures len | ((1 as bv32) << 19) | ((1 as bv32) << 24) | ((2 as bv32) << 25) ==
            len + 0x8_0000 + 0x100_0000 + 0x400_0000
  {
  }

  /** The command and port fields survive exactly for commands below 128; the other three always do. */
  lemma CommandFields(cmd: byte, len: u16)
    ensures var d := DecodeTxInfo(TxInfoCmd(cmd, len));
            && d.length == len && d.sequence == 0 && d.kind == 1
            && d.command == cmd % 128
            && (d.port == CPU_TX_PORT <==> cmd < 128)
  {
    LowFields(cmd, len);
    HighFields(cmd, len);
  }

  lemma LowFields(cmd: byte, len: u16)
    ensures TxInfoCmd(cmd, len) % 0x1_0000 == len && TxInfoCmd(cmd, len) / 0x1_0000 == 16 * cmd + 0x5000
    ensures (16 * cmd + 0x5000) % 16 == 0
  {
  }

  lemma HighFields(cmd: byte, len: u16)
    ensures TxInfoCmd(cmd, len) / 0x10_0000 == cmd + 0x500 && (cmd + 0x500) % 128 == cmd % 128
    ensures TxInfoCmd(cmd, len) / 0x800_0000 == cmd / 128 + 10 && TxInfoCmd(cmd, len) / 0x4000_0000 == 1
  {
  }

  lemma FirmwareFields(len: u16)
    ensures DecodeTxInfo(TxInfoFw(len)) == TxInfo(len, 0, 0, CPU_TX_PORT, 0)
  {
  }

  // ---------------------------------------------------------------- writing into a buffer

  /** `memcpy(buf + off, data, n); off += n;` */
  method Put(buf: array<byte>, off: nat, data: seq<byte>) returns (end: nat)
    requires off + |data| <= buf.Length
    modifies buf
    ensures end == off + |data|
    ensures buf[..end] == old(buf[..off]) + data && buf[end..] == old(buf[end..])
  {
    for i := 0 to |data|
      invariant buf[..off] == old(buf[..off]) && buf[off..off + i] == data[..i]
      invariant buf[off + i..] == old(buf[off + i..])
    {
      ghost var was := buf[..];
      buf[off + i] := data[i];
      assert buf[off..off + i + 1] == buf[off..off + i] + [data[i]];
      assert buf[..off] == was[..off] && buf[off..off + i] == was[off..off + i];
      assert buf[off + i + 1..] == was[off + i..][1..];
    }
    end := off + |data|;
    assert data[..|data|] == data;
    assert buf[..end] == buf[..off] + buf[off..end];
  }

  /** Bytes missing to the next multiple of four: `(4 - (n & 3)) & 3`. */
  function Pad(n: nat): (p: nat)
    ensures p < 4 && (n + p) % 4 == 0
  {
    (4 - n % 4) % 4
  }

  // ---------------------------------------------------------------- MCU commands

  function Padded(data: seq<byte>): (p: seq<byte>)
    ensures |p| % 4 == 0 && |p| == |data| + Pad(|data|)
  {
    data + Zeros(Pad(|data|))
  }

  /** `mt76_mcu_cmd`: descriptor, data, padding to four bytes, four zero bytes. */
  function McuPacket(cmd: byte, data: seq<byte>): seq<byte> {
    Le32(TxInfoCmd(cmd, ToU16(|Padded(data)|))) + Padded(data) + Zeros(4)
  }

  datatype Mcu = Mcu(command: nat, data: seq<byte>)

  function DecodeMcu(pkt: seq<byte>): Option<Mcu> {
    if |pkt| < 8 then None
    else
      var d := DecodeTxInfo(Read32(pkt, 0));
      if d.kind != 1 || d.port != CPU_TX_PORT || |pkt| != d.length + 8 || pkt[|pkt| - 4..] != Zeros(4) then None
      else Some(Mcu(d.command, pkt[4..|pkt| - 4]))
  }

  lemma ReadBack(v: u32, rest: seq<byte>)
    ensures Read32(Le32(v) + rest, 0) == v
  {
    Le32Inverse(v);
  }

  lemma McuShape(w: u32, padded: seq<byte>)
    ensures var pkt := Le32(w) + padded + Zeros(4);
            && |pkt| == |padded| + 8 && Read32(pkt, 0) == w
            && pkt[4..|pkt| - 4] == padded && pkt[|pkt| - 4..] == Zeros(4)
  {
    var pkt := Le32(w) + padded + Zeros(4);
    assert pkt == Le32(w) + (padded + Zeros(4));
    ReadBack(w, padded + Zeros(4));
  }

  lemma DecodesMcu(w: u32, padded: seq<byte>)
    ensures var d := DecodeTxInfo(w);
            DecodeMcu(Le32(w) + padded + Zeros(4)) ==
            if d.kind == 1 && d.port == CPU_TX_PORT && d.length == |padded| then Some(Mcu(d.command, padded)) else None
  {
    McuShape(w, padded);
  }

  lemma DecodesCommand(cmd: byte, padded: seq<byte>)
    ensures DecodeMcu(Le32(TxInfoCmd(cmd, ToU16(|padded|))) + padded + Zeros(4)) == Some(Mcu(cmd, padded)) <==>
            cmd < 128 && |padded| < 0x1_0000
  {
    DecodesMcu(TxInfoCmd(cmd, ToU16(|padded|)), padded);
    CommandFields(cmd, ToU16(|padded|));
  }

  lemma StaysAligned(m: nat)
    requires m % 4 == 0
    ensures (8 + m) % 4 == 0
  {
  }

  lemma McuAligned(cmd: byte, data: seq<byte>)
    ensures |McuPacket(cmd, data)| == 8 + |Padded(data)| && (8 + |Padded(data)|) % 4 == 0
  {
    var padded := Padded(data);
    StaysAligned(|padded|);
    McuShape(TxInfoCmd(cmd, ToU16(|padded|)), padded);
  }

  /** A command comes back with its padded data exactly when its number fits the seven-bit field and its padded
      length the sixteen-bit one. */
  lemma McuRoundTrip(cmd: byte, data: seq<byte>)
    ensures DecodeMcu(McuPacket(cmd, data)) == Some(Mcu(cmd, Padded(data))) <==> cmd < 128 && |Padded(data)| < 0x1_0000
  {
    var padded := Padded(data);
    DecodesCommand(cmd, padded);
    assert McuPacket(cmd, data) == Le32(TxInfoCmd(cmd, ToU16(|padded|))) + padded + Zeros(4);
  }

  method McuCmd(cmd: byte, data: seq<byte>) returns (pkt: seq<byte>)
    ensures pkt == McuPacket(cmd, data)
  {
    var padding := (4 - |data| % 4) % 4;
    var total := 4 + |data| + padding + 4;
    var buf := new byte[total](_ => 0);
    assert buf[..] == Zeros(total);
    var off := Put(buf, 0, Le32(TxInfoCmd(cmd, ToU16(|data| + padding))));
    assert buf[off..] == Zeros(total - off);
    ghost var rest := buf[off..];
    off := Put(buf, off, data);
    assert buf[off..] == rest[|data|..];
    assert buf[off..] == Zeros(padding) + Zeros(4);
    assert buf[..] == buf[..off] + buf[off..];
    pkt := buf[..];
    assert pkt == Le32(TxInfoCmd(cmd, ToU16(|data| + padding))) + (data + Zeros(padding)) + Zeros(4);
  }

  // ---------------------------------------------------------------- 802.11 packets

  /** The five TxWi words: OFDM in bits 29-31 of word 0; in word 1 the ack bit, WCID and 14-bit byte count. */
  function TxWi(ack: bool, wcid: byte, count: nat): (t: seq<byte>)
    ensures |t| == TXWI_SIZE
  {
    [0, 0, 0, 0x20, if ack then 1 else 0, wcid, count % 256, count / 256 % 64] + Zeros(12)
  }

  /** The receiver address starts at byte 4; its lowest bit marks a group address. */
  predicate Multicast(frame: seq<byte>) { |frame| >= 10 && frame[4] % 2 == 1 }

  /** `mt76_wlan_tx`: nothing for a frame over 2048 bytes. */
  function WlanPacket(frame: seq<byte>, wcid: byte): Option<seq<byte>> {
    if |frame| > MAX_FRAME then None
    else
      var n := TXWI_SIZE + |frame|;
      Some(Le32(TxInfoWlan(n + Pad(n))) + TxWi(!Multicast(frame), wcid, |frame|) + frame + Zeros(Pad(n)) + Zeros(4))
  }

  /** The 14-bit MPDU byte count in the upper half of TxWi word 1. */
  function ByteCount(low: byte, high: byte): nat { low as int + 256 * (high as int % 64) }

  datatype OnAir = OnAir(wcid: byte, ack: bool, frame: seq<byte>)

  /** is80211, wiv, EDCA queue, WLAN port, ordinary packet; the sequence bits 20 to 23 are clear. */
  predicate WlanBits(info: u32) {
    && info / 0x8_0000 % 2 == 1 && info / 0x10_0000 % 16 == 0 && info / 0x100_0000 % 2 == 1
    && info / 0x200_0000 % 4 == 2 && info / 0x800_0000 == 0
  }

  /** A TxWi with nothing set but OFDM, the ack bit, the WCID and the byte count. */
  predicate PlainTxWi(t: seq<byte>) {
    |t| == TXWI_SIZE && t[..4] == [0, 0, 0, 0x20] && t[4] <= 1 && t[7] < 0x40 && t[8..] == Zeros(12)
  }

  function DecodeWlan(pkt: seq<byte>): Option<OnAir> {
    if |pkt| < 28 then None
    else
      var info := Read32(pkt, 0);
      var n := ByteCount(pkt[10], pkt[11]);
      if !WlanBits(info) then None
      else if |pkt| != info % 0x8_0000 + 8 || !PlainTxWi(pkt[4..24]) || 24 + n + 4 > |pkt| then None
      else if pkt[24 + n..] != Zeros(|pkt| - 24 - n) then None
      else Some(OnAir(pkt[9], pkt[8] % 2 == 1, pkt[24..24 + n]))
  }

  lemma Sections(info: u32, wi: seq<byte>, frame: seq<byte>, pad: nat)
    requires |wi| == TXWI_SIZE
    ensures var pkt := Le32(info) + wi + frame + Zeros(pad) + Zeros(4);
            && |pkt| == 28 + |frame| + pad && Read32(pkt, 0) == info
            && pkt[4..24] == wi && pkt[24..24 + |frame|] == frame && pkt[24 + |frame|..] == Zeros(pad + 4)
  {
    var pkt := Le32(info) + wi + frame + Zeros(pad) + Zeros(4);
    assert pkt == Le32(info) + (wi + frame + Zeros(pad) + Zeros(4));
    ReadBack(info, wi + frame + Zeros(pad) + Zeros(4));
  }

  lemma TxWiFields(ack: bool, wcid: byte, count: nat)
    requires count < 0x4000
    ensures var t := TxWi(ack, wcid, count);
            PlainTxWi(t) && t[4] % 2 == (if ack then 1 else 0) && t[5] == wcid && ByteCount(t[6], t[7]) == count
  {
    CountBytes(count);
    assert TxWi(ack, wcid, count)[8..] == Zeros(12);
  }

  lemma CountBytes(count: nat)
    requires count < 0x4000
    ensures count / 256 < 64 && ByteCount(count % 256, count / 256) == count && count / 256 % 64 == count / 256
  {
  }

  lemma DecodesSections(info: u32, wi: seq<byte>, frame: seq<byte>, pad: nat)
    requires |wi| == TXWI_SIZE && WlanBits(info) && info % 0x8_0000 == TXWI_SIZE + |frame| + pad
    requires PlainTxWi(wi) && ByteCount(wi[6], wi[7]) == |frame|
    ensures DecodeWlan(Le32(info) + wi + frame + Zeros(pad) + Zeros(4)) == Some(OnAir(wi[5], wi[4] % 2 == 1, frame))
  {
    var pkt := Le32(info) + wi + frame + Zeros(pad) + Zeros(4);
    Sections(info, wi, frame, pad);
    var window := pkt[4..24];
    assert pkt[8] == window[4] && pkt[9] == window[5];
    assert pkt[10] == window[6] && pkt[11] == window[7];
  }

  lemma WlanInfoFields(len: u16)
    ensures WlanBits(TxInfoWlan(len)) && TxInfoWlan(len) % 0x8_0000 == len
  {
  }

  lemma WlanAligned(frame: seq<byte>, wcid: byte)
    requires |frame| <= MAX_FRAME
    ensures |WlanPacket(frame, wcid).value| % 4 == 0
  {
    var n := TXWI_SIZE + |frame|;
    var padding := Pad(n);
    Sections(TxInfoWlan(n + padding), TxWi(!Multicast(frame), wcid, |frame|), frame, padding);
    StaysAligned(n + padding);
  }

  lemma DecodesWlan(frame: seq<byte>, wcid: byte)
    requires |frame| <= MAX_FRAME
    ensures DecodeWlan(WlanPacket(frame, wcid).value) == Some(OnAir(wcid, !Multicast(frame), frame))
  {
    var n, wi := TXWI_SIZE + |frame|, TxWi(!Multicast(frame), wcid, |frame|);
    var padding := Pad(n);
    var info := TxInfoWlan(n + padding);
    WlanInfoFields(n + padding);
    TxWiFields(!Multicast(frame), wcid, |frame|);
    DecodesSections(info, wi, frame, padding);
    WlanPacketIs(frame, wcid);
  }

  lemma WlanPacketIs(frame: seq<byte>, wcid: byte)
    requires |frame| <= MAX_FRAME
    ensures var n := TXWI_SIZE + |frame|;
            var wi := TxWi(!Multicast(frame), wcid, |frame|);
            WlanPacket(frame, wcid) == Some(Le32(TxInfoWlan(n + Pad(n))) + wi + frame + Zeros(Pad(n)) + Zeros(4))
  {
  }

  /** Every frame of up to 2048 bytes comes back with its WCID, with an acknowledgement asked for exactly when it is
      not a group frame; longer frames are not sent. */
  lemma WlanRoundTrip(frame: seq<byte>, wcid: byte)
    ensures WlanPacket(frame, wcid).Some? <==> |frame| <= MAX_FRAME
    ensures |frame| <= MAX_FRAME ==>
            && |WlanPacket(frame, wcid).value| % 4 == 0
            && DecodeWlan(WlanPacket(frame, wcid).value) == Some(OnAir(wcid, !Multicast(frame), frame))
  {
    if |frame| <= MAX_FRAME {
      DecodesWlan(frame, wcid);
      WlanAligned(frame, wcid);
    }
  }

  /** A frame for `dst` that fits, and is acknowledged exactly when `dst` is not a group address. */
  ghost predicate Reaches(frame: seq<byte>, dst: Mac, wcid: byte) {
    && |frame| >= 24 && frame[4..10] == dst && WlanPacket(frame, wcid).Some?
    && DecodeWlan(WlanPacket(frame, wcid).value) == Some(OnAir(wcid, dst[0] % 2 == 0, frame))
  }

  lemma ShortFrameReaches(frame: seq<byte>, dst: Mac, wcid: byte)
    requires 24 <= |frame| <= MAX_FRAME && frame[4..10] == dst
    ensures Reaches(frame, dst, wcid)
  {
    WlanRoundTrip(frame, wcid);
    assert frame[4] == frame[4..10][0];
  }

  /** None of the daemon's answers is too long to be sent, and each is addressed to the station it answers. */
  lemma ResponsesReach(dst: Mac, ourMac: Mac, channel: byte, request: seq<byte>, reassoc: bool, w: byte, wcid: byte)
    ensures Reaches(ProbeResponse(dst, ourMac, channel), dst, wcid)
    ensures Reaches(AuthResponse(dst, ourMac, request), dst, wcid)
    ensures Reaches(AssocResponse(dst, ourMac, reassoc), dst, wcid)
    ensures Reaches(PairResponse(dst, ourMac), dst, wcid)
    ensures Reaches(ActionResponse(dst, ourMac, w), dst, wcid)
  {
    ShortFrameReaches(ProbeResponse(dst, ourMac, channel), dst, wcid);
    ShortFrameReaches(AuthResponse(dst, ourMac, request), dst, wcid);
    ShortFrameReaches(AssocResponse(dst, ourMac, reassoc), dst, wcid);
    ShortFrameReaches(PairResponse(dst, ourMac), dst, wcid);
    ShortFrameReaches(ActionResponse(dst, ourMac, w), dst, wcid);
  }

  /** The descriptor and TxWi half of the packet, written over a zeroed header. */
  method PutWlanHead(buf: array<byte>, info: u32, multicast: bool, wcid: byte, count: nat) returns (off: nat)
    requires buf.Length >= 24
    modifies buf
    ensures off == 24 && buf[..off] == Le32(info) + TxWi(!multicast, wcid, count)
  {
    off := Put(buf, 0, Le32(info));
    off := Put(buf, off, Zeros(20));
    buf[4 + 3] := 0x20;
    buf[4 + 4] := if multicast then 0x00 else 0x01;
    buf[4 + 5] := wcid;
    buf[4 + 6] := count % 256;
    buf[4 + 7] := count / 256 % 64;
  }

  method WlanTransmit(frame: seq<byte>, wcid: byte) returns (pkt: Option<seq<byte>>)
    ensures pkt == WlanPacket(frame, wcid)
  {
    var buf := new byte[4 + 20 + 2048 + 3 + 4];
    if |frame| > 2048 { return None; }
    var n := 20 + |frame|;
    var padding := (4 - n % 4) % 4;
    var multicast := |frame| >= 10 && frame[4] % 2 == 1;
    var off := PutWlanHead(buf, n + padding + 0x8_0000 + 0x100_0000 + 2 * 0x200_0000, multicast, wcid, |frame|);
    off := Put(buf, off, frame);
    off := Put(buf, off, Zeros(padding));
    off := Put(buf, off, Zeros(4));
    pkt := Some(buf[..off]);
  }

  // ---------------------------------------------------------------- GIP packets

  /** Big-endian, as `__builtin_bswap32` leaves it in memory. */
  function Be32(v: u32): (b: seq<byte>)
    ensures |b| == 4
  {
    [v / 0x100_0000, v / 0x1_0000 % 256, v / 0x100 % 256, v % 256]
  }

  function ReadBe32(b: seq<byte>): (v: u32)
    requires |b| >= 4
  {
    b[3] as int + 0x100 * b[2] as int + 0x1_0000 * b[1] as int + 0x100_0000 * b[0] as int
  }

  /** A QoS data frame from the distribution system, 144 microseconds. */
  function QosHeader(mac: Mac, ourMac: Mac): (h: seq<byte>)
    ensures |h| == 26
  {
    [0x88, 0x02, 0x90, 0x00] + mac + ourMac + ourMac + [0, 0, 0, 0]
  }

  /** Index of the peer, zero word, TxWi, QoS data header from the access point, two bytes of frame padding. */
  function GipHead(wcid: byte, mac: Mac, ourMac: Mac, length: nat): (h: seq<byte>)
    ensures |h| == 56
  {
    Be32((wcid - 1) % 0x1_0000_0000) + Zeros(4) + TxWi(true, 0, 26 + length)
    + QosHeader(mac, ourMac) + Zeros(2)
  }

  /** `wlan_send_gip` for an active peer; None where it sends nothing. */
  function GipPacket(wcid: byte, mac: Mac, ourMac: Mac, gip: seq<byte>): Option<seq<byte>> {
    if gip == [] || 56 + |gip| + Pad(|gip|) > GIP_PAYLOAD_SIZE then None
    else Some(McuPacket(CMD_PACKET_TX, GipHead(wcid, mac, ourMac, |gip|) + gip + Zeros(Pad(|gip|))))
  }

  datatype Delivery = Delivery(wcid: int, receiver: seq<byte>, sender: seq<byte>, gip: seq<byte>)

  /** A plain TxWi with an acknowledgement and no WCID of its own; a QoS data frame from the distribution system for 144
      microseconds, whose sender is also the network; sequence control, QoS control and padding are zero. */
  predicate GipHeader(d: seq<byte>)
    requires |d| >= 56
  {
    && d[4..8] == Zeros(4) && PlainTxWi(d[8..28]) && d[12] == 1 && d[13] == 0
    && d[28..32] == [0x88, 0x02, 0x90, 0x00]
    && d[44..50] == d[38..44] && d[50..56] == Zeros(6)
  }

  function DecodeGip(pkt: seq<byte>): Option<Delivery> {
    var mcu := DecodeMcu(pkt);
    if mcu.None? || mcu.value.command != CMD_PACKET_TX || |mcu.value.data| < 56 then None
    else
      var d := mcu.value.data;
      var n := ByteCount(d[14], d[15]) - 26;
      if n < 0 || 56 + n > |d| || d[56 + n..] != Zeros(|d| - 56 - n) || !GipHeader(d) then None
      else Some(Delivery(ReadBe32(d) + 1, d[32..38], d[38..44], d[56..56 + n]))
  }

  lemma Be32Inverse(v: u32, rest: seq<byte>)
    ensures ReadBe32(Be32(v) + rest) == v
  {
    Le32Inverse(v);
    Nested(v);
  }

  lemma HeadIndex(wcid: byte, mac: Mac, ourMac: Mac, length: nat)
    requires wcid >= 1
    ensures ReadBe32(GipHead(wcid, mac, ourMac, length)) + 1 == wcid
  {
    var index := Be32((wcid - 1) % 0x1_0000_0000);
    var rest := Zeros(4) + TxWi(true, 0, 26 + length) + QosHeader(mac, ourMac) + Zeros(2);
    assert GipHead(wcid, mac, ourMac, length) == index + rest;
    Be32Inverse(wcid - 1, rest);
  }

  lemma HeadTxWi(wcid: byte, mac: Mac, ourMac: Mac, length: nat)
    requires length <= 100
    ensures var h := GipHead(wcid, mac, ourMac, length);
            PlainTxWi(h[8..28]) && h[12] == 1 && h[13] == 0 && ByteCount(h[14], h[15]) == 26 + length
  {
    var h, wi := GipHead(wcid, mac, ourMac, length), TxWi(true, 0, 26 + length);
    assert h[8..28] == wi;
    assert h[8..28][4] == h[12] && h[8..28][5] == h[13] && h[8..28][6] == h[14] && h[8..28][7] == h[15];
    TxWiFields(true, 0, 26 + length);
  }

  lemma HeadMacs(wcid: byte, mac: Mac, ourMac: Mac, length: nat)
    ensures var h := GipHead(wcid, mac, ourMac, length);
            && h[28..32] == [0x88, 0x02, 0x90, 0x00] && h[32..38] == mac && h[38..44] == ourMac && h[44..50] == ourMac
            && h[50..54] == Zeros(4)
  {
    var h, qos := GipHead(wcid, mac, ourMac, length), QosHeader(mac, ourMac);
    assert h[28..54] == qos;
    assert qos[..4] == [0x88, 0x02, 0x90, 0x00] && qos[4..10] == mac && qos[10..16] == ourMac && qos[16..22] == ourMac;
    assert qos[22..26] == [0, 0, 0, 0] == Zeros(4);
    assert h[28..54][..4] == h[28..32] && h[28..54][4..10] == h[32..38] && h[28..54][10..16] == h[38..44];
    assert h[28..54][16..22] == h[44..50] && h[28..54][22..26] == h[50..54];
  }

  lemma HeadIsGip(wcid: byte, mac: Mac, ourMac: Mac, length: nat)
    requires length <= 100
    ensures GipHeader(GipHead(wcid, mac, ourMac, length))
  {
    var h := GipHead(wcid, mac, ourMac, length);
    HeadTxWi(wcid, mac, ourMac, length);
    HeadMacs(wcid, mac, ourMac, length);
    assert h[4..8] == Zeros(4);
    assert h[54..56] == Zeros(2);
    assert h[50..56] == h[50..54] + h[54..56] == Zeros(6);
  }

  /** The header is decided by the first 56 bytes. */
  lemma HeaderPrefix(h: seq<byte>, d: seq<byte>)
    requires |h| == 56 && |d| >= 56 && d[..56] == h
    ensures GipHeader(d) == GipHeader(h)
  {
    assert forall i :: 0 <= i < 56 ==> d[i] == h[i];
    assert d[4..8] == h[4..8] && d[8..28] == h[8..28] && d[28..32] == h[28..32];
    assert d[44..50] == h[44..50] && d[38..44] == h[38..44];
    assert d[50..56] == h[50..56];
  }

  /** The payload needs no padding of the MCU layer. */
  lemma GipPayloadShape(head: seq<byte>, gip: seq<byte>)
    requires |head| == 56
    ensures var d := head + gip + Zeros(Pad(|gip|));
            && |d| % 4 == 0 && d[..56] == head && d[56..56 + |gip|] == gip && d[56 + |gip|..] == Zeros(Pad(|gip|))
            && Padded(d) == d
  {
  }

  lemma DecodesPayload(wcid: byte, mac: Mac, ourMac: Mac, gip: seq<byte>)
    requires wcid >= 1 && 0 < |gip| <= 100
    ensures var d := GipHead(wcid, mac, ourMac, |gip|) + gip + Zeros(Pad(|gip|));
            && |d| >= 56 && ReadBe32(d) + 1 == wcid && GipHeader(d) && ByteCount(d[14], d[15]) == 26 + |gip|
            && d[32..38] == mac && d[38..44] == ourMac
  {
    var h := GipHead(wcid, mac, ourMac, |gip|);
    var d := h + gip + Zeros(Pad(|gip|));
    HeadIndex(wcid, mac, ourMac, |gip|);
    HeadTxWi(wcid, mac, ourMac, |gip|);
    HeadMacs(wcid, mac, ourMac, |gip|);
    assert d[..56] == h by { GipPayloadShape(h, gip); }
    HeadIsGip(wcid, mac, ourMac, |gip|);
    HeaderPrefix(h, d);
    assert forall i :: 0 <= i < 56 ==> d[i] == d[..56][i];
    assert d[32..38] == d[..56][32..38] && d[38..44] == d[..56][38..44];
  }

  lemma DecodesData(d: seq<byte>, n: nat)
    requires |d| % 4 == 0 && 56 + n <= |d| < 0x1_0000 && Padded(d) == d
    requires GipHeader(d) && ByteCount(d[14], d[15]) == 26 + n && d[56 + n..] == Zeros(|d| - 56 - n)
    ensures DecodeGip(McuPacket(CMD_PACKET_TX, d)) ==
            Some(Delivery(ReadBe32(d) + 1, d[32..38], d[38..44], d[56..56 + n]))
  {
    McuRoundTrip(CMD_PACKET_TX, d);
  }

  lemma DecodesMessage(wcid: byte, mac: Mac, ourMac: Mac, gip: seq<byte>)
    requires wcid >= 1 && 1 <= |gip| <= 100
    ensures var d := GipHead(wcid, mac, ourMac, |gip|) + gip + Zeros(Pad(|gip|));
            DecodeGip(McuPacket(CMD_PACKET_TX, d)) == Some(Delivery(wcid, mac, ourMac, gip))
  {
    var h := GipHead(wcid, mac, ourMac, |gip|);
    var d := h + gip + Zeros(Pad(|gip|));
    GipPayloadShape(h, gip);
    DecodesPayload(wcid, mac, ourMac, gip);
    DecodesData(d, |gip|);
  }

  lemma PaddedFits(n: nat)
    ensures 56 + n + Pad(n) > GIP_PAYLOAD_SIZE <==> n > 100
  {
  }

  /** Every GIP message of 1 to 100 bytes reaches the right peer entry and receiver address byte for byte; the empty
      one and every longer one are not sent. */
  lemma GipRoundTrip(wcid: byte, mac: Mac, ourMac: Mac, gip: seq<byte>)
    requires wcid >= 1
    ensures GipPacket(wcid, mac, ourMac, gip).Some? <==> 1 <= |gip| <= 100
    ensures 1 <= |gip| <= 100 ==>
            && |GipPacket(wcid, mac, ourMac, gip).value| % 4 == 0
            && DecodeGip(GipPacket(wcid, mac, ourMac, gip).value) == Some(Delivery(wcid, mac, ourMac, gip))
  {
    PaddedFits(|gip|);
    if 1 <= |gip| <= 100 {
      var d := GipHead(wcid, mac, ourMac, |gip|) + gip + Zeros(Pad(|gip|));
      DecodesMessage(wcid, mac, ourMac, gip);
      McuAligned(CMD_PACKET_TX, d);
      assert GipPacket(wcid, mac, ourMac, gip) == Some(McuPacket(CMD_PACKET_TX, d));
    }
  }

  lemma GuardsAgree(n: nat)
    ensures 4 * ((n + 3) / 4) > 100 <==> n > 100
  {
  }

  /** The daemon's log records a GIP message exactly when a packet leaves, and the packet decodes to what is logged. */
  lemma SentIsLogged(c: Config, s: State, w: byte, gip: seq<byte>)
    requires w < 128 && s.peers[w].active && s.peers[w].wcid >= 1
    ensures var p := s.peers[w];
            var pkt := GipPacket(p.wcid, p.mac, c.ourMac, gip);
            if pkt.None? then SendGip(s, w, gip) == s
            else DecodeGip(pkt.value).Some? &&
                 var air := DecodeGip(pkt.value).value;
                 SendGip(s, w, gip) == Log(s, GipTx(p.wcid, air.receiver, air.gip)) && air.wcid == p.wcid
  {
    var p := s.peers[w];
    GipRoundTrip(p.wcid, p.mac, c.ourMac, gip);
    GuardsAgree(|gip|);
    if 1 <= |gip| <= 100 {
      assert SendGip(s, w, gip) == Log(s, GipTx(p.wcid, p.mac, gip));
    }
  }

  method PutHeader(buf: array<byte>, off: nat, mac: Mac, ourMac: Mac) returns (end: nat)
    requires off + 26 <= buf.Length
    modifies buf
    ensures end == off + 26
    ensures buf[..end] == old(buf[..off]) + QosHeader(mac, ourMac)
  {
    end := Put(buf, off, [0x88, 0x02, 0x90, 0x00]);
    end := Put(buf, end, mac);
    end := Put(buf, end, ourMac);
    end := Put(buf, end, ourMac);
    end := Put(buf, end, [0, 0, 0, 0]);
  }

  method WlanSendGip(active: bool, wcid: byte, mac: Mac, ourMac: Mac, gip: seq<byte>) returns (pkt: Option<seq<byte>>)
    ensures pkt == if active then GipPacket(wcid, mac, ourMac, gip) else None
  {
    if !active || |gip| == 0 { return None; }
    var framePad := (4 - (20 + 26) % 4) % 4;
    var dataPad := (4 - |gip| % 4) % 4;
    var payload := new byte[4 + 4 + 20 + 26 + 3 + 96 + 3];
    var off := Put(payload, 0, Be32((wcid - 1) % 0x1_0000_0000));
    off := Put(payload, off, Zeros(4));
    off := Put(payload, off, TxWi(true, 0, 26 + |gip|));
    off := PutHeader(payload, off, mac, ourMac);
    off := Put(payload, off, Zeros(framePad));
    assert payload[..off] == GipHead(wcid, mac, ourMac, |gip|);
    if off + |gip| + dataPad > payload.Length { return None; }
    off := Put(payload, off, gip);
    off := Put(payload, off, Zeros(dataPad));
    var sent := McuCmd(0, payload[..off]);
    pkt := Some(sent);
  }
}
