// Firmware loading: the chunked DMA load of mt76_init.h into the device's two memories, and the partial-retry bulk
// upload of mt76_firmware.h. The device is a script of answers, so every statement is about any device.

module Firmware {
  import opened Bytes
  import opened Framing

  const CHUNK: nat := 0x3800
  const ILM: nat := 0x80000
  const DLM: nat := 0x100000 + 0x10800
  const HEADER: nat := 32
  /** `mt76_load_firmware` hands on no shorter file. */
  const MIN_SIZE: nat := 32 * 1024
  const WRAP: nat := 0x1_0000_0000

  // ---------------------------------------------------------------- device memory

  /** `memory` with `data` written from `at` on. */
  function Store(memory: map<nat, byte>, at: nat, data: seq<byte>): map<nat, byte> {
    if data == [] then memory else Store(memory, at, data[..|data| - 1])[at + |data| - 1 := data[|data| - 1]]
  }

  lemma {:induction false} StoreAt(memory: map<nat, byte>, at: nat, data: seq<byte>, i: nat)
    ensures var m := Store(memory, at, data);
            && (i in m <==> i in memory || at <= i < at + |data|)
            && (i in m ==> m[i] == if at <= i < at + |data| then data[i - at] else memory[i])
  {
    if data != [] {
      StoreAt(memory, at, data[..|data| - 1], i);
    }
  }

  lemma {:induction false} StoreTwice(memory: map<nat, byte>, at: nat, a: seq<byte>, b: seq<byte>)
    ensures Store(Store(memory, at, a), at + |a|, b) == Store(memory, at, a + b)
    decreases |b|
  {
    if b == [] {
      assert a + b == a;
    } else {
      var n := |b| - 1;
      StoreTwice(memory, at, a, b[..n]);
      assert (a + b)[..|a + b| - 1] == a + b[..n];
    }
  }

  // ---------------------------------------------------------------- completion words

  /** `((uint32_t)chunk << 16) | 0xc0000000` for a chunk that leaves the two top bits free. */
  function Complete(chunk: nat): u32
    requires chunk <= CHUNK
  {
    chunk * 0x1_0000 + 0xc000_0000
  }

  /** A completion word says how much was stored, and is never what the driver itself wrote to the register. */
  lemma CompletionTells(a: nat, b: nat)
    requires a <= CHUNK && b <= CHUNK
    ensures Complete(a) == Complete(b) <==> a == b
    ensures Complete(a) != b * 0x1_0000
  {
  }

  lemma CompletionIsOr(chunk: bv32)
    requires chunk <= 0x3800
    ensures (chunk << 16) | 0xc000_0000 == (chunk << 16) + 0xc000_0000
  {
  }

  // ---------------------------------------------------------------- the device

  datatype Status = Success | Timeout | Fault

  /** The device's answer to one chunk: how the bulk transfer ends, after how many polls the DMA is done, and how many
      bytes it stored (never more than the length register asked for). */
  datatype Reply = Reply(status: Status, polls: nat, taken: nat)

  function First(script: seq<Reply>): Reply { if script == [] then Reply(Fault, 0, 0) else script[0] }

  function Rest(script: seq<Reply>): seq<Reply> { if script == [] then [] else script[1..] }

  function Reading(readings: seq<u32>): u32 { if readings == [] then 0 else readings[0] }

  function LaterReadings(readings: seq<u32>): seq<u32> { if readings == [] then [] else readings[1..] }

  function Min(a: nat, b: nat): nat { if a < b then a else b }

  /** The answer the driver needs to a chunk of `n` bytes. */
  predicate Good(r: Reply, n: nat) { !r.status.Fault? && r.polls < 200 && r.taken >= n }

  /** The length of the first chunk. */
  function Chunk(data: seq<byte>): nat { Min(|data|, CHUNK) }

  /** Whether a device with this script takes all of `data`, chunk by chunk. */
  predicate Loads(script: seq<Reply>, data: seq<byte>)
    decreases |data|
  {
    data == [] || (Good(First(script), Chunk(data)) && Loads(Rest(script), data[Chunk(data)..]))
  }

  function AfterLoad(script: seq<Reply>, data: seq<byte>): seq<Reply>
    decreases |data|
  {
    if data == [] then script else AfterLoad(Rest(script), data[Chunk(data)..])
  }

  /** Whether one of the next `n` readings differs from `v`, and the readings left once polling for that stops. */
  predicate Leaves(readings: seq<u32>, v: u32, n: nat) {
    n > 0 && (Reading(readings) != v || Leaves(LaterReadings(readings), v, n - 1))
  }

  function Polled(readings: seq<u32>, v: u32, n: nat): seq<u32> {
    if n == 0 then readings
    else if Reading(readings) != v then LaterReadings(readings)
    else Polled(LaterReadings(readings), v, n - 1)
  }

  /** Half way through a part: `done` bytes are in memory, and the rest depends on the answers still to come. */
  ghost predicate Underway(memory0: map<nat, byte>, script0: seq<Reply>, memory: map<nat, byte>, script: seq<Reply>,
                           at: nat, data: seq<byte>, done: nat) {
    && done <= |data| && memory == Store(memory0, at, data[..done])
    && Loads(script0, data) == Loads(script, data[done..])
    && AfterLoad(script0, data) == AfterLoad(script, data[done..])
  }

  lemma Begins(memory: map<nat, byte>, script: seq<Reply>, at: nat, data: seq<byte>)
    ensures Underway(memory, script, memory, script, at, data, 0)
  {
    assert data[..0] == [] && data[0..] == data;
  }

  lemma StoresOn(memory: map<nat, byte>, at: nat, data: seq<byte>, done: nat, chunk: nat, taken: nat)
    requires taken <= chunk && done + chunk <= |data|
    ensures Store(Store(memory, at, data[..done]), at + done, data[done..done + chunk][..taken]) ==
            Store(memory, at, data[..done + taken])
  {
    StoreTwice(memory, at, data[..done], data[done..done + chunk][..taken]);
    assert data[..done] + data[done..done + chunk][..taken] == data[..done + taken];
  }

  lemma Advances(memory0: map<nat, byte>, script0: seq<Reply>, memory: map<nat, byte>, script: seq<Reply>,
                 at: nat, data: seq<byte>, done: nat)
    requires done < |data| && Underway(memory0, script0, memory, script, at, data, done)
    requires Good(First(script), Chunk(data[done..]))
    ensures var chunk := Chunk(data[done..]);
            var bytes := data[done..done + chunk];
            Underway(memory0, script0, Store(memory, at + done, bytes[..chunk]), Rest(script), at, data, done + chunk)
  {
    var chunk := Chunk(data[done..]);
    StoresOn(memory0, at, data, done, chunk, chunk);
    assert data[done..][chunk..] == data[done + chunk..];
  }

  lemma Stops(memory0: map<nat, byte>, script0: seq<Reply>, memory: map<nat, byte>, script: seq<Reply>,
              at: nat, data: seq<byte>, done: nat, taken: nat)
    requires done < |data| && Underway(memory0, script0, memory, script, at, data, done)
    requires !Good(First(script), Chunk(data[done..])) && taken <= Chunk(data[done..])
    ensures var chunk := Chunk(data[done..]);
            && !Loads(script0, data)
            && Store(memory, at + done, data[done..done + chunk][..taken]) == Store(memory0, at, data[..done + taken])
  {
    StoresOn(memory0, at, data, done, Chunk(data[done..]), taken);
  }

  lemma Ends(memory0: map<nat, byte>, script0: seq<Reply>, memory: map<nat, byte>, script: seq<Reply>,
             at: nat, data: seq<byte>)
    requires Underway(memory0, script0, memory, script, at, data, |data|)
    ensures Loads(script0, data) && memory == Store(memory0, at, data) && script == AfterLoad(script0, data)
  {
    assert data[|data|..] == [] && data[..|data|] == data;
  }

  // ---------------------------------------------------------------- the image

  function IlmLength(fw: seq<byte>): u32
    requires |fw| >= HEADER
  {
    Read32(fw, 0)
  }

  function DlmLength(fw: seq<byte>): u32
    requires |fw| >= HEADER
  {
    Read32(fw, 4)
  }

  /** The program's test; its sum is taken in 32 bits. */
  predicate PassesSizeCheck(fw: seq<byte>) {
    |fw| >= HEADER && (HEADER + IlmLength(fw) + DlmLength(fw)) % WRAP <= |fw|
  }

  predicate HasImage(fw: seq<byte>) { |fw| >= HEADER && HEADER + IlmLength(fw) + DlmLength(fw) <= |fw| }

  /** The image is in the file and neither the loop counter nor the device address leaves 32 bits. */
  predicate Loadable(fw: seq<byte>) {
    HasImage(fw) && ILM + IlmLength(fw) + CHUNK <= WRAP && DLM + DlmLength(fw) + CHUNK <= WRAP
  }

  function IlmImage(fw: seq<byte>): seq<byte>
    requires HasImage(fw)
  {
    fw[HEADER..HEADER + IlmLength(fw)]
  }

  function DlmImage(fw: seq<byte>): seq<byte>
    requires HasImage(fw)
  {
    fw[HEADER + IlmLength(fw)..HEADER + IlmLength(fw) + DlmLength(fw)]
  }

  /** For every file below four gigabytes: one that passes the size check holds its image if and only if the header's
      lengths do not wrap, and one that holds its image always passes. */
  lemma SizeCheckMeans(fw: seq<byte>)
    requires HEADER <= |fw| < WRAP
    ensures HasImage(fw) <==> PassesSizeCheck(fw) && HEADER + IlmLength(fw) + DlmLength(fw) < WRAP
  {
  }

  /** For every length the loader accepts, a file that passes the check although its lengths promise four gigabytes. */
  lemma SizeCheckCanWrap(n: nat)
    requires MIN_SIZE <= n
    ensures var fw := [0xe0, 0xff, 0xff, 0xff] + Zeros(n - 4);
            |fw| == n && PassesSizeCheck(fw) && (n < WRAP ==> !HasImage(fw))
  {
    var fw := [0xe0, 0xff, 0xff, 0xff] + Zeros(n - 4);
    assert Read32(fw, 0) == 0xffff_ffe0 && Read32(fw, 4) == 0;
  }

  function Loaded(memory: map<nat, byte>, fw: seq<byte>): map<nat, byte>
    requires HasImage(fw)
  {
    Store(Store(memory, ILM, IlmImage(fw)), DLM, DlmImage(fw))
  }

  /** Where every byte of a loaded image ends up: data memory holds the data part, instruction memory the code part but
      for the bytes that reach into the data part's place, and no other address changes. */
  lemma ImagePlaced(memory: map<nat, byte>, fw: seq<byte>, i: nat)
    requires HasImage(fw)
    ensures var m, ilm, dlm := Loaded(memory, fw), IlmLength(fw), DlmLength(fw);
            && (i < dlm ==> DLM + i in m && m[DLM + i] == fw[HEADER + ilm + i])
            && (i < ilm && !(DLM <= ILM + i < DLM + dlm) ==> ILM + i in m && m[ILM + i] == fw[HEADER + i])
            && (i < ilm && DLM <= ILM + i < DLM + dlm ==>
                ILM + i in m && m[ILM + i] == fw[HEADER + ilm + (ILM + i - DLM)])
            && (!(ILM <= i < ILM + ilm) && !(DLM <= i < DLM + dlm) ==>
                (i in m <==> i in memory) && (i in m ==> m[i] == memory[i]))
  {
    var first := Store(memory, ILM, IlmImage(fw));
    StoreAt(memory, ILM, IlmImage(fw), i);
    StoreAt(memory, ILM, IlmImage(fw), ILM + i);
    StoreAt(first, DLM, DlmImage(fw), i);
    StoreAt(first, DLM, DlmImage(fw), ILM + i);
    StoreAt(first, DLM, DlmImage(fw), DLM + i);
  }

  /** How `mt76_upload_fw_dma` ends; `Undefined` stands for reading past the file or wrapping a 32-bit counter. */
  datatype Outcome = TooSmall | Reused | Undefined | Failed | Started

  /** The readings of FCE_DMA_ADDR left when loading starts. */
  function AfterReset(readings: seq<u32>): seq<u32> {
    if Reading(readings) == 0 then LaterReadings(readings) else Polled(LaterReadings(readings), 0x8000_0000, 200)
  }

  function UploadOutcome(fw: seq<byte>, script: seq<Reply>, readings: seq<u32>, forceReload: bool): Outcome {
    if !PassesSizeCheck(fw) then TooSmall
    else if Reading(readings) != 0 && !forceReload then Reused
    else if !Loadable(fw) then Undefined
    else if Loads(script, IlmImage(fw)) && Loads(AfterLoad(script, IlmImage(fw)), DlmImage(fw))
            && Leaves(AfterReset(readings), 1, 400) then Started
    else Failed
  }

  class Dongle {
    var memory: map<nat, byte>
    var dmaAddr: u32
    var dmaLen: u32
    var wait: nat
    var stored: nat
    var script: seq<Reply>
    var readings: seq<u32>

    constructor (script: seq<Reply>, readings: seq<u32>)
      ensures memory == map[] && this.script == script && this.readings == readings
    {
      memory, dmaAddr, dmaLen, wait, stored := map[], 0, 0, 0, 0;
      this.script, this.readings := script, readings;
    }

    /** What reading FCE_DMA_ADDR gives: any sequence of values. */
    method ReadAddr() returns (v: u32)
      modifies this`readings
      ensures v == Reading(old(readings)) && readings == LaterReadings(old(readings))
    {
      v := Reading(readings);
      readings := LaterReadings(readings);
    }

    /** A bulk packet: descriptor, bytes, alignment. What is taken lands where the DMA registers point. */
    method BulkOut(pkt: seq<byte>) returns (status: Status)
      requires dmaLen / 0x1_0000 <= CHUNK && |pkt| == dmaLen / 0x1_0000 + 8
      modifies this`memory, this`script, this`wait, this`stored
      ensures script == Rest(old(script)) && status == First(old(script)).status && wait == First(old(script)).polls
      ensures stored == Min(First(old(script)).taken, dmaLen / 0x1_0000)
      ensures memory == Store(old(memory), dmaAddr, pkt[4..4 + stored])
    {
      var reply := First(script);
      status, wait, stored, script := reply.status, reply.polls, Min(reply.taken, dmaLen / 0x1_0000), Rest(script);
      memory := Store(memory, dmaAddr, pkt[4..4 + stored]);
    }

    method ReadLen() returns (v: u32)
      requires stored <= CHUNK
      modifies this`wait
      ensures v == (if old(wait) == 0 then Complete(stored) else dmaLen)
      ensures wait == if old(wait) == 0 then 0 else old(wait) - 1
    {
      if wait == 0 { v := Complete(stored); } else { v, wait := dmaLen, wait - 1; }
    }

    /** `mt76_poll` with `mt76_poll_fce_done`: at most 200 reads of the length register. */
    method PollDone(expected: u32) returns (done: bool)
      requires stored <= CHUNK && dmaLen != expected
      modifies this`wait
      ensures done <==> old(wait) < 200 && Complete(stored) == expected
    {
      for i := 0 to 200
        invariant wait == (if old(wait) < i then 0 else old(wait) - i)
        invariant old(wait) < i ==> Complete(stored) != expected
      {
        var v := ReadLen();
        if v == expected { return true; }
      }
      return false;
    }

    /** The body of the loop of `mt76_fw_load_part`; `taken` bytes reach the memory. */
    method LoadChunk(at: u32, bytes: seq<byte>) returns (ok: bool, ghost taken: nat)
      requires 0 < |bytes| <= CHUNK
      modifies this
      ensures ok == Good(First(old(script)), |bytes|) && script == Rest(old(script)) && readings == old(readings)
      ensures taken <= |bytes| && memory == Store(old(memory), at, bytes[..taken]) && (ok ==> taken == |bytes|)
    {
      var pkt := Le32(TxInfoFw(|bytes|)) + bytes + Zeros(4);
      dmaAddr := at;
      dmaLen := |bytes| * 0x1_0000;
      var status := BulkOut(pkt);
      taken := stored;
      assert pkt[4..4 + |bytes|] == bytes;
      assert pkt[4..4 + stored] == pkt[4..4 + |bytes|][..stored];
      if status.Fault? { return false, taken; }
      CompletionTells(stored, |bytes|);
      CompletionTells(|bytes|, |bytes|);
      ok := PollDone(Complete(|bytes|));
    }

    /** One pass of that loop, `done` bytes in. */
    method LoadNext(at: nat, data: seq<byte>, done: u32, ghost memory0: map<nat, byte>, ghost script0: seq<Reply>)
      returns (good: bool, chunk: nat, ghost taken: nat)
      requires at + |data| + CHUNK <= WRAP && done < |data|
      requires Underway(memory0, script0, memory, script, at, data, done)
      modifies this
      ensures readings == old(readings) && 0 < chunk && done + chunk <= |data|
      ensures good ==> Underway(memory0, script0, memory, script, at, data, done + chunk)
      ensures !good ==> !Loads(script0, data) && taken <= chunk && memory == Store(memory0, at, data[..done + taken])
    {
      ghost var before, answers := memory, script;
      chunk := |data| - done;
      if chunk > CHUNK { chunk := CHUNK; }
      good, taken := LoadChunk(at + done, data[done..done + chunk]);
      if good {
        Advances(memory0, script0, before, answers, at, data, done);
      } else {
        Stops(memory0, script0, before, answers, at, data, done, taken);
      }
    }

    /** `mt76_fw_load_part`: succeeds exactly when every chunk is answered well, and then the whole part is in memory;
        whatever happens, the memory only gains a prefix of the part at its place. */
    method LoadPart(at: nat, data: seq<byte>) returns (ok: bool, ghost reached: nat)
      requires at + |data| + CHUNK <= WRAP
      modifies this
      ensures ok == Loads(old(script), data) && readings == old(readings)
      ensures reached <= |data| && memory == Store(old(memory), at, data[..reached])
      ensures ok ==> memory == Store(old(memory), at, data) && script == AfterLoad(old(script), data)
    {
      var done: u32 := 0;
      Begins(memory, script, at, data);
      while done < |data|
        invariant Underway(old(memory), old(script), memory, script, at, data, done) && readings == old(readings)
      {
        var good, chunk, taken := LoadNext(at, data, done, old(memory), old(script));
        if !good { return false, done + taken; }
        done := done + chunk;
      }
      Ends(old(memory), old(script), memory, script, at, data);
      return true, done;
    }

    /** Polls FCE_DMA_ADDR at most `n` times for a value other than `v`. */
    method PollAddr(v: u32, n: nat) returns (left: bool)
      modifies this`readings
      ensures left == Leaves(old(readings), v, n) && readings == Polled(old(readings), v, n)
    {
      for i := 0 to n
        invariant Leaves(old(readings), v, n) == Leaves(readings, v, n - i)
        invariant Polled(old(readings), v, n) == Polled(readings, v, n - i)
      {
        var now := ReadAddr();
        if now != v { return true; }
      }
      return false;
    }

    /** Both parts, ILM first. */
    method LoadParts(code: seq<byte>, data: seq<byte>) returns (ok: bool)
      requires ILM + |code| + CHUNK <= WRAP && DLM + |data| + CHUNK <= WRAP
      modifies this
      ensures ok == (Loads(old(script), code) && Loads(AfterLoad(old(script), code), data))
      ensures ok ==> memory == Store(Store(old(memory), ILM, code), DLM, data)
      ensures readings == old(readings)
    {
      var first, _ := LoadPart(ILM, code);
      if !first { return false; }
      var second, _ := LoadPart(DLM, data);
      return second;
    }

    method LoadImage(fw: seq<byte>) returns (ok: bool)
      requires Loadable(fw)
      modifies this
      ensures ok == (Loads(old(script), IlmImage(fw)) && Loads(AfterLoad(old(script), IlmImage(fw)), DlmImage(fw)))
      ensures ok ==> memory == Loaded(old(memory), fw)
      ensures readings == old(readings)
    {
      var ilm, dlm := Read32(fw, 0), Read32(fw, 4);
      var code, data := fw[32..32 + ilm], fw[32 + ilm..32 + ilm + dlm];
      assert code == IlmImage(fw) && data == DlmImage(fw);
      ok := LoadParts(code, data);
    }

    /** `mt76_upload_fw_dma` */
    method UploadFwDma(fw: seq<byte>, forceReload: bool) returns (outcome: Outcome)
      modifies this
      ensures outcome == UploadOutcome(fw, old(script), old(readings), forceReload)
      ensures outcome.Started? ==> HasImage(fw) && memory == Loaded(old(memory), fw)
      ensures outcome.TooSmall? || outcome.Reused? || outcome.Undefined? ==> memory == old(memory)
    {
      if |fw| < 32 { return TooSmall; }
      var ilm, dlm := Read32(fw, 0), Read32(fw, 4);
      if (32 + ilm + dlm) % 0x1_0000_0000 > |fw| { return TooSmall; }
      var fce := ReadAddr();
      if fce != 0 {
        if !forceReload { return Reused; }
        var _ := PollAddr(0x8000_0000, 200);
      }
      if !Loadable(fw) { return Undefined; }
      var loaded := LoadImage(fw);
      if !loaded { return Failed; }
      dmaAddr := 0;
      var booted := PollAddr(0x01, 400);
      if booted {
        var _ := ReadAddr();
        return Started;
      }
      return Failed;
    }
  }

  // ---------------------------------------------------------------- partial-retry upload

  datatype UsbResult = UsbOk | NoDevice | IoError | OtherError

  /** The outcome of one bulk transfer; at most as many bytes go out as were offered. */
  datatype Transfer = Transfer(result: UsbResult, sent: nat)

  datatype Retry = Retry(accepted: nat, passes: nat, gaveUp: bool)

  /** `mt76_upload_firmware` from pass number `pass` on, with `offset` bytes accepted and `zeros` idle passes in a
      row. */
  function Retries(size: nat, device: nat -> Transfer, pass: nat, offset: nat, zeros: nat): Retry
    requires offset <= size && zeros < 3
    decreases size - offset, 3 - zeros
  {
    if offset == size then Retry(offset, pass, false)
    else
      var t := device(pass);
      var sent := Min(t.sent, size - offset);
      if sent > 0 then
        if t.result.UsbOk? then Retry(offset + sent, pass + 1, false)
        else Retries(size, device, pass + 1, offset + sent, 0)
      else if t.result.NoDevice? || t.result.IoError? then Retry(offset, pass + 1, false)
      else if zeros + 1 >= 3 then Retry(offset, pass + 1, true)
      else Retries(size, device, pass + 1, offset, zeros + 1)
  }

  /** The loop itself. Against any device it ends, and the bytes the device accepted are a prefix of the file. */
  method UploadFirmware(fw: seq<byte>, device: nat -> Transfer) returns (code: int, accepted: seq<byte>, passes: nat)
    ensures var r := Retries(|fw|, device, 0, 0, 0);
            && accepted <= fw && |accepted| == r.accepted && passes == r.passes
            && code == if r.gaveUp || r.accepted == 0 then -1 else 0
    ensures code == 0 ==> accepted != []
  {
    var offset, zeroPasses := 0, 0;
    accepted, passes := [], 0;
    while offset < |fw|
      invariant 0 <= offset <= |fw| && 0 <= zeroPasses < 3 && accepted == fw[..offset]
      invariant Retries(|fw|, device, 0, 0, 0) == Retries(|fw|, device, passes, offset, zeroPasses)
      decreases |fw| - offset, 3 - zeroPasses
    {
      var t := device(passes);
      var tx := Min(t.sent, |fw| - offset);
      accepted := accepted + fw[offset..][..tx];
      passes := passes + 1;
      if tx > 0 {
        zeroPasses := 0;
        offset := offset + tx;
        if t.result.UsbOk? { break; }
        continue;
      }
      if t.result.NoDevice? || t.result.IoError? { break; }
      zeroPasses := zeroPasses + 1;
      if zeroPasses >= 3 { return -1, accepted, passes; }
    }
    code := if offset == 0 then -1 else 0;
  }

  /** Every accepted byte buys at most three passes. */
  lemma {:induction false} PassesBounded(size: nat, device: nat -> Transfer, pass: nat, offset: nat, zeros: nat)
    requires offset <= size && zeros < 3
    ensures var r := Retries(size, device, pass, offset, zeros);
            offset <= r.accepted <= size && r.passes - pass <= 3 * (r.accepted - offset) + 3 - zeros
    decreases size - offset, 3 - zeros
  {
    if offset < size {
      var t := device(pass);
      var sent := Min(t.sent, size - offset);
      if sent > 0 {
        if !t.result.UsbOk? { PassesBounded(size, device, pass + 1, offset + sent, 0); }
      } else if !t.result.NoDevice? && !t.result.IoError? && zeros + 1 < 3 {
        PassesBounded(size, device, pass + 1, offset, zeros + 1);
      }
    }
  }

  // How the loop ends, read off the device's script alone.

  ghost function Sent(device: nat -> Transfer, n: nat): nat {
    if n == 0 then 0 else Sent(device, n - 1) + device(n - 1).sent
  }

  /** The transfer after which the loop stops by itself: reported as complete, or a vanished device. */
  ghost predicate Final(t: Transfer) {
    if t.sent > 0 then t.result.UsbOk? else t.result.NoDevice? || t.result.IoError?
  }

  ghost predicate ThreeIdle(device: nat -> Transfer, q: nat) {
    device(q).sent == 0 && device(q + 1).sent == 0 && device(q + 2).sent == 0
  }

  /** Pass `n` takes place. */
  ghost predicate Reached(size: nat, device: nat -> Transfer, n: nat) {
    && Sent(device, n) < size
    && (forall q: nat :: q < n ==> !Final(device(q)))
    && (forall q: nat :: q + 2 < n ==> !ThreeIdle(device, q))
  }

  /** Pass `n` sends the last byte of the file. */
  ghost predicate Delivers(size: nat, device: nat -> Transfer, n: nat) {
    Reached(size, device, n) && Sent(device, n + 1) >= size
  }

  /** Pass `n` is the third idle one in a row. */
  ghost predicate Abandons(size: nat, device: nat -> Transfer, n: nat) {
    Reached(size, device, n) && n >= 2 && ThreeIdle(device, n - 2) && !Final(device(n))
  }

  /** Pass `n` stops the loop with bytes of the file left. */
  ghost predicate BreaksOff(size: nat, device: nat -> Transfer, n: nat) {
    Reached(size, device, n) && Sent(device, n + 1) < size && Final(device(n))
  }

  ghost predicate Ended(size: nat, device: nat -> Transfer, n: nat) {
    Delivers(size, device, n) || Abandons(size, device, n) || BreaksOff(size, device, n)
  }

  lemma {:induction false} SentGrows(device: nat -> Transfer, m: nat, n: nat)
    requires m <= n
    ensures Sent(device, m) <= Sent(device, n)
  {
    if m < n { SentGrows(device, m, n - 1); }
  }

  lemma EndsOnce(size: nat, device: nat -> Transfer, m: nat, n: nat)
    requires Ended(size, device, m) && Ended(size, device, n)
    ensures m == n
  {
    if m < n {
      NothingAfter(size, device, m, n);
    } else if n < m {
      NothingAfter(size, device, n, m);
    }
  }

  lemma NothingAfter(size: nat, device: nat -> Transfer, m: nat, n: nat)
    requires Ended(size, device, m) && m < n
    ensures !Reached(size, device, n)
  {
    SentGrows(device, m + 1, n);
    if Abandons(size, device, m) {
      var q: nat := m - 2;
      assert ThreeIdle(device, q) && q + 2 < n;
    }
  }

  /** The loop before pass `pass`: everything sent was accepted, and the last `zeros` passes were the idle ones. */
  ghost predicate AtPass(size: nat, device: nat -> Transfer, pass: nat, offset: nat, zeros: nat) {
    && Reached(size, device, pass) && offset == Sent(device, pass) && zeros <= pass && zeros < 3
    && (forall q: nat :: pass - zeros <= q < pass ==> device(q).sent == 0)
    && (zeros < pass ==> device(pass - zeros - 1).sent > 0)
  }

  /** With fewer than two idle passes so far, this one cannot be the third. */
  lemma BusyBefore(device: nat -> Transfer, pass: nat, zeros: nat)
    requires pass >= 2 && zeros <= 1 && device(pass - zeros - 1).sent > 0
    ensures !ThreeIdle(device, pass - 2)
  {
    var q: nat := pass - 2;
    assert q + 1 == pass - 1;
  }

  lemma NextPass(size: nat, device: nat -> Transfer, pass: nat, offset: nat, zeros: nat)
    requires AtPass(size, device, pass, offset, zeros) && !Final(device(pass)) && offset + device(pass).sent < size
    requires device(pass).sent == 0 ==> zeros + 1 < 3
    ensures AtPass(size, device, pass + 1, offset + device(pass).sent, if device(pass).sent == 0 then zeros + 1 else 0)
  {
    if pass >= 2 && device(pass).sent == 0 {
      BusyBefore(device, pass, zeros);
    }
  }

  lemma LastPass(size: nat, device: nat -> Transfer, pass: nat, offset: nat, zeros: nat)
    requires AtPass(size, device, pass, offset, zeros)
    ensures offset + device(pass).sent >= size ==> Delivers(size, device, pass)
    ensures offset + device(pass).sent < size && Final(device(pass)) ==> BreaksOff(size, device, pass)
    ensures device(pass).sent == 0 && !Final(device(pass)) && zeros + 1 >= 3 ==> Abandons(size, device, pass)
  {
    if device(pass).sent == 0 && zeros == 2 {
      assert device(pass - 2).sent == 0 && device(pass - 1).sent == 0;
      assert pass - 2 + 1 == pass - 1 && pass - 2 + 2 == pass;
      assert ThreeIdle(device, pass - 2);
    }
  }

  /** What the loop's result says about its last pass. */
  ghost predicate Tells(size: nat, device: nat -> Transfer, r: Retry) {
    && r.passes > 0 && r.accepted == Min(size, Sent(device, r.passes))
    && (if r.accepted == size then Delivers(size, device, r.passes - 1) && !r.gaveUp
        else if r.gaveUp then Abandons(size, device, r.passes - 1)
        else BreaksOff(size, device, r.passes - 1))
  }

  ghost predicate GoesOn(size: nat, t: Transfer, offset: nat, zeros: nat) {
    offset + t.sent < size && !Final(t) && (t.sent > 0 || zeros + 1 < 3)
  }

  lemma RetriesGoOn(size: nat, device: nat -> Transfer, pass: nat, offset: nat, zeros: nat)
    requires offset < size && zeros < 3 && GoesOn(size, device(pass), offset, zeros)
    ensures var t := device(pass);
            Retries(size, device, pass, offset, zeros) ==
            Retries(size, device, pass + 1, offset + t.sent, if t.sent == 0 then zeros + 1 else 0)
  {
  }

  lemma RetriesEnd(size: nat, device: nat -> Transfer, pass: nat, offset: nat, zeros: nat)
    requires offset < size && zeros < 3 && !GoesOn(size, device(pass), offset, zeros)
    ensures var t := device(pass);
            Retries(size, device, pass, offset, zeros) ==
            Retry(Min(size, offset + t.sent), pass + 1, t.sent == 0 && !Final(t))
  {
  }

  lemma {:induction false} RetriesTell(size: nat, device: nat -> Transfer, pass: nat, offset: nat, zeros: nat)
    requires AtPass(size, device, pass, offset, zeros)
    ensures Tells(size, device, Retries(size, device, pass, offset, zeros))
    decreases size - offset, 3 - zeros
  {
    var t := device(pass);
    if GoesOn(size, t, offset, zeros) {
      NextPass(size, device, pass, offset, zeros);
      RetriesGoOn(size, device, pass, offset, zeros);
      RetriesTell(size, device, pass + 1, offset + t.sent, if t.sent == 0 then zeros + 1 else 0);
    } else {
      LastPass(size, device, pass, offset, zeros);
      RetriesEnd(size, device, pass, offset, zeros);
    }
  }

  /** For any device the script alone decides the end: the whole file is accepted if and only if some pass delivers its
      last byte, the loop gives up if and only if some pass is the third idle one, and it stops short without failing
      if and only if some pass breaks off - each time at a pass the loop reaches. */
  lemma WhyShort(size: nat, device: nat -> Transfer)
    requires size > 0
    ensures var r := Retries(size, device, 0, 0, 0);
            && (r.accepted == size <==> exists n: nat :: Delivers(size, device, n))
            && (r.gaveUp <==> exists n: nat :: Abandons(size, device, n))
            && (r.accepted < size && !r.gaveUp <==> exists n: nat :: BreaksOff(size, device, n))
  {
    var r := Retries(size, device, 0, 0, 0);
    RetriesTell(size, device, 0, 0, 0);
    var last := r.passes - 1;
    assert Ended(size, device, last);
    if n: nat :| Delivers(size, device, n) {
      assert Ended(size, device, n);
      EndsOnce(size, device, n, last);
    }
    if n: nat :| Abandons(size, device, n) {
      assert Ended(size, device, n);
      EndsOnce(size, device, n, last);
    }
    if n: nat :| BreaksOff(size, device, n) {
      assert Ended(size, device, n);
      EndsOnce(size, device, n, last);
    }
    OneEnding(size, device, last);
  }

  lemma OneEnding(size: nat, device: nat -> Transfer, n: nat)
    ensures !(Delivers(size, device, n) && Abandons(size, device, n))
    ensures !(Delivers(size, device, n) && BreaksOff(size, device, n))
    ensures !(Abandons(size, device, n) && BreaksOff(size, device, n))
  {
    if n >= 2 && ThreeIdle(device, n - 2) {
      assert device(n - 2 + 2).sent == 0;
    }
  }

  /** A result of 0 does not mean that the whole file arrived: here one byte of two did. */
  lemma ZeroMayBePartial()
    ensures var device := (i: nat) => if i == 0 then Transfer(OtherError, 1) else Transfer(NoDevice, 0);
            Retries(2, device, 0, 0, 0) == Retry(1, 2, false)
  {
    var device := (i: nat) => if i == 0 then Transfer(OtherError, 1) else Transfer(NoDevice, 0);
    assert Retries(2, device, 1, 1, 0) == Retry(1, 2, false);
  }
}
