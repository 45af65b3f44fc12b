/** The AR0830 firmware loader: blocks of tagged records pushed through a wrapping window of registers. */
module Ar0830Firmware {

  newtype Byte = x: int | 0 <= x < 256

  const BLOCK_SIZE: nat := 256
  const MAX_RECORDS: nat := 50
  const OFFSET_BASE: nat := 6
  const OFFSET_STEP: nat := 5
  const START: nat := 0x8000
  const END: nat := 0x9fff
  const WINDOW: nat := 0x2000

  datatype RegWrite = RegWrite(addr: nat, payload: seq<Byte>)

  // ----- The pure decoder: first the payloads, then where they go -----

  function RecordAt(block: nat, j: nat): nat { block * BLOCK_SIZE + OFFSET_BASE + j * OFFSET_STEP }

  predicate IsSize(n: int) {
    n == 1 || n == 2 || n == 4
  }

  // A record is a tag, which is the payload's length, and four bytes of which the payload is the last ones.
  function Payload(data: seq<Byte>, at: nat): seq<Byte>
    requires at + 5 <= |data|
  {
    var tag := data[at] as int;
    if IsSize(tag) then data[at + 5 - tag..at + 5] else []
  }

  predicate NoRecord(data: seq<Byte>, at: nat) {
    at + 5 > |data| || !IsSize(data[at] as int)
  }

  // The payloads of one block from record `j` on, up to the first other tag, the 50th record or the end of the data.
  function BlockPayloads(data: seq<Byte>, block: nat, j: nat): seq<seq<Byte>>
    decreases MAX_RECORDS - j
  {
    if j >= MAX_RECORDS || NoRecord(data, RecordAt(block, j)) then []
    else [Payload(data, RecordAt(block, j))] + BlockPayloads(data, block, j + 1)
  }

  // Blocks 1 to `n`: block 0 is skipped, and the last one may be cut short by the end of the data.
  function Payloads(data: seq<Byte>, n: nat): seq<seq<Byte>> {
    Flatten(Blocks(data, n))
  }

  function Blocks(data: seq<Byte>, n: nat): (b: seq<seq<seq<Byte>>>)
    ensures |b| == n
  {
    seq(n, (i: nat) => BlockPayloads(data, i + 1, 0))
  }

  function Flatten(blocks: seq<seq<seq<Byte>>>): seq<seq<Byte>> {
    if blocks == [] then [] else Flatten(blocks[..|blocks| - 1]) + blocks[|blocks| - 1]
  }

  function NextAddr(addr: nat, size: nat): nat {
    if addr + size > END then START else addr + size
  }

  // The address after a list of payloads.
  function AddrAfter(payloads: seq<seq<Byte>>): nat {
    if payloads == [] then START
    else NextAddr(AddrAfter(payloads[..|payloads| - 1]), |payloads[|payloads| - 1]|)
  }

  // Each payload goes where the window stands after the payloads before it.
  function Place(payloads: seq<seq<Byte>>): (w: seq<RegWrite>)
    ensures |w| == |payloads|
  {
    seq(|payloads|, k requires 0 <= k < |payloads| => RegWrite(AddrAfter(payloads[..k]), payloads[k]))
  }

  function DecodeFirmware(data: seq<Byte>): seq<RegWrite> {
    Place(Payloads(data, |data| / BLOCK_SIZE))
  }

  // ----- The loader -----

  class Loader {
    const bus: nat -> bool        // the outcome of each transfer, in order
    var writes: seq<RegWrite>     // the transfers that went through

    constructor (bus: nat -> bool)
      ensures this.bus == bus && writes == []
    {
      this.bus, this.writes := bus, [];
    }

    method WriteReg(addr: nat, payload: seq<Byte>) returns (ok: bool)
      modifies this
      ensures writes == if ok then old(writes) + [RegWrite(addr, payload)] else old(writes)
      ensures ok == bus(|old(writes)|)
    {
      ok := bus(|writes|);
      if ok {
        writes := writes + [RegWrite(addr, payload)];
      }
    }

    // One record: the payload its tag asks for, or none.
    method ReadRecord(data: seq<Byte>, at: nat) returns (wbuf: seq<Byte>)
      requires at + 5 <= |data|
      ensures wbuf == Payload(data, at)
      ensures if NoRecord(data, at) then wbuf == [] else RecordIs(data, at, wbuf)
    {
      if data[at] == 4 {
        wbuf := [data[at + 1], data[at + 2], data[at + 3], data[at + 4]];
      } else if data[at] == 2 {
        wbuf := [data[at + 3], data[at + 4]];
      } else if data[at] == 1 {
        wbuf := [data[at + 4]];
      } else {
        wbuf := [];
      }
      assert data[at] != 0 && |wbuf| == data[at] as int ==> wbuf == data[at + 5 - |wbuf|..at + 5];
    }

    // Send one payload and move the window on.
    method Send(regAddr: nat, wbuf: seq<Byte>, ghost sent: seq<seq<Byte>>) returns (ok: bool, next: nat)
      requires Taken(writes, regAddr, sent)
      modifies this
      ensures if ok then Taken(writes, next, sent + [wbuf]) else Taken(writes, next, sent) && !bus(|writes|)
    {
      SendOne(sent, wbuf);
      ok := WriteReg(regAddr, wbuf);
      next := regAddr;
      if ok {
        next := regAddr + |wbuf|;
        if next > END {
          next := START;
        }
      }
    }

    // Record `j` of a block, if there is one; `all` is what has been sent once the block is through.
    method SendRecord(data: seq<Byte>, buf: nat, j: nat, regAddr: nat, ghost block: nat, ghost all: seq<seq<Byte>>,
                      ghost sent: seq<seq<Byte>>)
        returns (more: bool, ok: bool, next: nat, ghost now: seq<seq<Byte>>)
      requires buf == block * BLOCK_SIZE <= |data| && j < MAX_RECORDS
      requires Remaining(data, block, j, all, sent) && Taken(writes, regAddr, sent)
      modifies this
      ensures Taken(writes, next, now)
      ensures ok ==> if more then Remaining(data, block, j + 1, all, now) else now == all
      ensures !ok ==> !more && now < all && !bus(|writes|)
    {
      more, ok, next, now := false, true, regAddr, sent;
      var needed := OFFSET_BASE + j * OFFSET_STEP + 5;
      var wbuf: seq<Byte> := [];
      if |data| - buf >= needed {
        wbuf := ReadRecord(data, buf + OFFSET_BASE + j * OFFSET_STEP);
      }
      if wbuf == [] {
        BlockDone(data, block, j, all, sent);
        return;
      }
      TakeRecord(data, block, j, all, sent, wbuf);
      ok, next := Send(regAddr, wbuf, sent);
      if ok {
        more, now := true, sent + [wbuf];
      }
    }

    // One block, from a window that has taken `before`.
    method WriteBlock(data: seq<Byte>, buf: nat, ghost block: nat, start: nat, ghost before: seq<seq<Byte>>)
        returns (ok: bool, regAddr: nat, ghost sent: seq<seq<Byte>>)
      requires buf == block * BLOCK_SIZE <= |data| && Taken(writes, start, before)
      modifies this
      ensures Taken(writes, regAddr, sent)
      ensures ok ==> sent == before + BlockPayloads(data, block, 0)
      ensures !ok ==> sent < before + BlockPayloads(data, block, 0) && !bus(|writes|)
    {
      sent, regAddr := before, start;
      ghost var all := before + BlockPayloads(data, block, 0);
      var j := 0;
      var more := true;
      ok := true;
      while more && j < MAX_RECORDS
        invariant j <= MAX_RECORDS && Taken(writes, regAddr, sent)
        invariant ok ==> if more then Remaining(data, block, j, all, sent) else sent == all
        invariant !ok ==> !more && sent < all && !bus(|writes|)
        decreases MAX_RECORDS - j
      {
        more, ok, regAddr, sent := SendRecord(data, buf, j, regAddr, block, all, sent);
        j := j + 1;
      }
      if more {
        BlockDone(data, block, j, all, sent);
      }
    }

    /** On success the transfers are the decoder's output; on an I2C error they are a proper prefix of it, up
        to the transfer that failed. */
    method WriteFirmwareWindow(data: seq<Byte>) returns (ok: bool)
      requires writes == []
      modifies this
      ensures ok ==> writes == DecodeFirmware(data)
      ensures !ok ==> writes < DecodeFirmware(data) && !bus(|writes|)
    {
      var buf, regAddr := 0, START;
      ghost var sent: seq<seq<Byte>> := [];
      var numBlocks := |data| / BLOCK_SIZE;
      ok := true;
      var i := 0;
      while ok && i < numBlocks
        invariant i <= numBlocks && Taken(writes, regAddr, sent)
        invariant ok ==> buf == i * BLOCK_SIZE && sent == Payloads(data, i)
        invariant !ok ==> sent < Payloads(data, i) && !bus(|writes|)
      {
        OneMoreBlock(data, i);
        buf, i := buf + BLOCK_SIZE, i + 1;
        ok, regAddr, sent := WriteBlock(data, buf, i, regAddr, sent);
      }
      if !ok {
        StoppedEarly(data, sent, i, numBlocks);
      }
    }
  }

  // The transfers and the window's address once `sent` has gone through.
  predicate Taken(writes: seq<RegWrite>, regAddr: nat, sent: seq<seq<Byte>>) {
    writes == Place(sent) && regAddr == AddrAfter(sent)
  }

  // The payloads of a block from record `j` on are still to be sent.
  predicate Remaining(data: seq<Byte>, block: nat, j: nat, all: seq<seq<Byte>>, sent: seq<seq<Byte>>) {
    all == sent + BlockPayloads(data, block, j)
  }

  lemma BlockDone(data: seq<Byte>, block: nat, j: nat, all: seq<seq<Byte>>, sent: seq<seq<Byte>>)
    requires Remaining(data, block, j, all, sent) && (j >= MAX_RECORDS || NoRecord(data, RecordAt(block, j)))
    ensures sent == all
  {
  }

  // One payload moves from what is left of a block to what has been sent.
  lemma TakeRecord(data: seq<Byte>, block: nat, j: nat, all: seq<seq<Byte>>, sent: seq<seq<Byte>>, next: seq<Byte>)
    requires j < MAX_RECORDS && RecordAt(block, j) + 5 <= |data| && next == Payload(data, RecordAt(block, j)) != []
    requires Remaining(data, block, j, all, sent)
    ensures Remaining(data, block, j + 1, all, sent + [next])
    ensures sent < all
  {
    MoveOne(sent, next, BlockPayloads(data, block, j + 1));
  }

  lemma MoveOne(sent: seq<seq<Byte>>, next: seq<Byte>, rest: seq<seq<Byte>>)
    ensures sent + ([next] + rest) == sent + [next] + rest && sent < sent + ([next] + rest)
  {
  }

  lemma SendOne(sent: seq<seq<Byte>>, next: seq<Byte>)
    ensures Place(sent + [next]) == Place(sent) + [RegWrite(AddrAfter(sent), next)]
    ensures AddrAfter(sent + [next]) == NextAddr(AddrAfter(sent), |next|)
  {
    var all := sent + [next];
    assert all[..|sent|] == sent;
    forall k: nat | k < |sent| ensures all[..k] == sent[..k] {
    }
  }

  lemma PlacePrefix(a: seq<seq<Byte>>, b: seq<seq<Byte>>)
    requires a < b
    ensures Place(a) < Place(b)
  {
    forall k: nat | k < |a| ensures Place(a)[k] == Place(b)[k] {
      assert b[..k] == a[..k];
    }
  }

  lemma OneMoreBlock(data: seq<Byte>, n: nat)
    ensures Payloads(data, n + 1) == Payloads(data, n) + BlockPayloads(data, n + 1, 0)
  {
    assert Blocks(data, n + 1)[..n] == Blocks(data, n);
  }

  lemma {:induction false} FlattenPrefix(blocks: seq<seq<seq<Byte>>>, n: nat)
    requires n <= |blocks|
    ensures Flatten(blocks[..n]) <= Flatten(blocks)
  {
    if n < |blocks| {
      var shorter := blocks[..|blocks| - 1];
      assert shorter[..n] == blocks[..n];
      FlattenPrefix(shorter, n);
    } else {
      assert blocks[..n] == blocks;
    }
  }

  lemma StoppedEarly(data: seq<Byte>, sent: seq<seq<Byte>>, n: nat, m: nat)
    requires n <= m && sent < Payloads(data, n)
    ensures Place(sent) < Place(Payloads(data, m))
  {
    assert Blocks(data, m)[..n] == Blocks(data, n);
    FlattenPrefix(Blocks(data, m), n);
    PlacePrefix(sent, Payloads(data, m));
  }

  // ----- What is sent -----

  // A record with this payload stands at `at`: its tag is the payload's length and the payload ends it.
  predicate RecordIs(data: seq<Byte>, at: nat, p: seq<Byte>) {
    && at + 5 <= |data| && IsSize(|p|) && data[at] as int == |p|
    && forall i: nat | i < |p| :: data[at + 5 - |p| + i] == p[i]
  }

  lemma PayloadIs(data: seq<Byte>, at: nat, p: seq<Byte>)
    requires at + 5 <= |data| && p != []
    ensures Payload(data, at) == p <==> RecordIs(data, at, p)
  {
    if Payload(data, at) == p {
      assert forall i: nat | i < |p| :: data[at + 5 - |p|..at + 5][i] == p[i];
    }
  }

  // The records of a block from number `j` on are these: one after the other, and then 50 are full or no other
  // record follows.
  predicate RecordsAre(data: seq<Byte>, block: nat, j: nat, ps: seq<seq<Byte>>) {
    && j + |ps| <= MAX_RECORDS
    && (forall i: nat | i < |ps| :: RecordIs(data, RecordAt(block, j + i), ps[i]))
    && (j + |ps| < MAX_RECORDS ==> NoRecord(data, RecordAt(block, j + |ps|)))
  }

  lemma RecordsTail(data: seq<Byte>, block: nat, j: nat, ps: seq<seq<Byte>>)
    requires ps != [] && RecordsAre(data, block, j, ps)
    ensures RecordIs(data, RecordAt(block, j), ps[0]) && RecordsAre(data, block, j + 1, ps[1..])
  {
    assert RecordIs(data, RecordAt(block, j + 0), ps[0]);
    forall i: nat | i < |ps[1..]| ensures RecordIs(data, RecordAt(block, j + 1 + i), ps[1..][i]) {
      assert RecordIs(data, RecordAt(block, j + (i + 1)), ps[i + 1]);
    }
  }

  lemma {:induction false} BlockPayloadsAre(data: seq<Byte>, block: nat, j: nat, ps: seq<seq<Byte>>)
    requires RecordsAre(data, block, j, ps)
    ensures BlockPayloads(data, block, j) == ps
    decreases |ps|
  {
    if ps == [] {
    } else {
      RecordsTail(data, block, j, ps);
      PayloadIs(data, RecordAt(block, j), ps[0]);
      BlockPayloadsAre(data, block, j + 1, ps[1..]);
    }
  }

  lemma {:induction false} RecordsRead(data: seq<Byte>, block: nat, j: nat)
    requires j <= MAX_RECORDS
    ensures RecordsAre(data, block, j, BlockPayloads(data, block, j))
    decreases MAX_RECORDS - j
  {
    var ps := BlockPayloads(data, block, j);
    if ps == [] {
    } else {
      RecordsRead(data, block, j + 1);
      PayloadIs(data, RecordAt(block, j), ps[0]);
      forall i: nat | i < |ps| ensures RecordIs(data, RecordAt(block, j + i), ps[i]) {
        assert i > 0 ==> RecordIs(data, RecordAt(block, j + 1 + (i - 1)), ps[1..][i - 1]);
      }
    }
  }

  /** What is sent of a block are exactly the payloads of the records that stand in it: the tag of each is the
      payload's length, the payload is the end of the record, and the first other tag ends the block. */
  lemma BlockPayloadsExactly(data: seq<Byte>, block: nat, ps: seq<seq<Byte>>)
    ensures BlockPayloads(data, block, 0) == ps <==> RecordsAre(data, block, 0, ps)
  {
    RecordsRead(data, block, 0);
    if RecordsAre(data, block, 0, ps) {
      BlockPayloadsAre(data, block, 0, ps);
    }
  }

  // ----- An encoder, and back -----

  predicate Encodable(blocks: seq<seq<seq<Byte>>>) {
    forall b: nat | b < |blocks| :: |blocks[b]| <= 50 && forall k: nat | k < |blocks[b]| :: IsSize(|blocks[b][k]|)
  }

  function Zeros(n: nat): (z: seq<Byte>)
    ensures |z| == n
  {
    seq(n, _ => 0)
  }

  // Tag, filler, payload: five bytes.
  function EncodeRecord(p: seq<Byte>): (s: seq<Byte>)
    requires IsSize(|p|)
    ensures |s| == 5
  {
    [|p| as Byte] + Zeros(4 - |p|) + p
  }

  function EncodeRecords(ps: seq<seq<Byte>>): (s: seq<Byte>)
    requires forall k: nat | k < |ps| :: IsSize(|ps[k]|)
    ensures |s| == 5 * |ps|
  {
    if ps == [] then [] else EncodeRecords(ps[..|ps| - 1]) + EncodeRecord(ps[|ps| - 1])
  }

  // Six bytes that are not read, the records, and zeros up to 256 bytes.
  function EncodeBlock(ps: seq<seq<Byte>>): (s: seq<Byte>)
    requires |ps| <= 50 && forall k: nat | k < |ps| :: IsSize(|ps[k]|)
    ensures |s| == 256
  {
    Zeros(6) + EncodeRecords(ps) + Zeros(250 - 5 * |ps|)
  }

  // A file: a header block of any contents, and then the blocks.
  function EncodeFirmware(header: seq<Byte>, blocks: seq<seq<seq<Byte>>>): (s: seq<Byte>)
    requires |header| == 256 && Encodable(blocks)
    ensures |s| == 256 * (|blocks| + 1)
  {
    if blocks == [] then header
    else EncodeFirmware(header, blocks[..|blocks| - 1]) + EncodeBlock(blocks[|blocks| - 1])
  }

  lemma {:induction false} RecordsEncoded(ps: seq<seq<Byte>>, k: nat)
    requires (forall i: nat | i < |ps| :: IsSize(|ps[i]|)) && k < |ps|
    ensures EncodeRecords(ps)[5 * k..5 * k + 5] == EncodeRecord(ps[k])
  {
    var init := ps[..|ps| - 1];
    if k < |ps| - 1 {
      RecordsEncoded(init, k);
      assert EncodeRecords(ps)[5 * k..5 * k + 5] == EncodeRecords(init)[5 * k..5 * k + 5];
    } else {
      assert EncodeRecords(ps)[5 * k..5 * k + 5] == EncodeRecord(ps[k]);
    }
  }

  lemma {:induction false} BlockEncoded(header: seq<Byte>, blocks: seq<seq<seq<Byte>>>, b: nat)
    requires |header| == 256 && Encodable(blocks) && b < |blocks|
    ensures EncodeFirmware(header, blocks)[256 * (b + 1)..256 * (b + 2)] == EncodeBlock(blocks[b])
  {
    var init, file := blocks[..|blocks| - 1], EncodeFirmware(header, blocks);
    if b < |blocks| - 1 {
      BlockEncoded(header, init, b);
      assert file[256 * (b + 1)..256 * (b + 2)] == EncodeFirmware(header, init)[256 * (b + 1)..256 * (b + 2)];
    } else {
      assert file[256 * (b + 1)..256 * (b + 2)] == EncodeBlock(blocks[b]);
    }
  }

  lemma EncodedRecordIs(data: seq<Byte>, at: nat, p: seq<Byte>)
    requires IsSize(|p|) && at + 5 <= |data| && data[at..at + 5] == EncodeRecord(p)
    ensures RecordIs(data, at, p)
  {
    var record := data[at..at + 5];
    assert record[0] == data[at];
    forall i: nat | i < |p| ensures data[at + 5 - |p| + i] == p[i] {
      assert record[5 - |p| + i] == data[at + 5 - |p| + i];
    }
  }

  lemma Within(data: seq<Byte>, from: nat, to: nat, i: nat, j: nat)
    requires from <= to <= |data| && i <= j <= to - from
    ensures data[from..to][i..j] == data[from + i..from + j]
  {
    var part := data[from..to];
    forall k: nat | k < j - i ensures part[i..j][k] == data[from + i..from + j][k] {
      assert part[i + k] == data[from + (i + k)];
    }
  }

  lemma InsideBlock(ps: seq<seq<Byte>>, k: nat)
    requires |ps| <= 50 && (forall i: nat | i < |ps| :: IsSize(|ps[i]|)) && k <= |ps| && k < 50
    ensures var place := 6 + 5 * k;
      if k < |ps| then EncodeBlock(ps)[place..place + 5] == EncodeRecord(ps[k]) else EncodeBlock(ps)[place] == 0
  {
    if k < |ps| {
      RecordsEncoded(ps, k);
      assert EncodeBlock(ps)[6 + 5 * k..6 + 5 * k + 5] == EncodeRecords(ps)[5 * k..5 * k + 5];
    } else {
      assert EncodeBlock(ps)[6 + 5 * k] == Zeros(250 - 5 * k)[0];
    }
  }

  // The records of a block that stands at its place in the data.
  lemma EncodedRecordAt(data: seq<Byte>, block: nat, ps: seq<seq<Byte>>, k: nat)
    requires |ps| <= 50 && forall i: nat | i < |ps| :: IsSize(|ps[i]|)
    requires 256 * (block + 1) <= |data| && data[256 * block..256 * (block + 1)] == EncodeBlock(ps)
    requires k <= |ps| && k < 50
    ensures if k < |ps| then RecordIs(data, RecordAt(block, k), ps[k]) else NoRecord(data, RecordAt(block, k))
  {
    var at, place := RecordAt(block, k), 6 + 5 * k;
    InsideBlock(ps, k);
    Within(data, 256 * block, 256 * (block + 1), place, if k < |ps| then place + 5 else place + 1);
    if k < |ps| {
      EncodedRecordIs(data, at, ps[k]);
    } else {
      assert data[256 * block..256 * (block + 1)][place] == data[at];
    }
  }

  lemma BlockDecoded(header: seq<Byte>, blocks: seq<seq<seq<Byte>>>, b: nat)
    requires |header| == 256 && Encodable(blocks) && b < |blocks|
    ensures BlockPayloads(EncodeFirmware(header, blocks), b + 1, 0) == blocks[b]
  {
    var file, ps := EncodeFirmware(header, blocks), blocks[b];
    BlockEncoded(header, blocks, b);
    forall i: nat | i < |ps| ensures RecordIs(file, RecordAt(b + 1, 0 + i), ps[i]) {
      EncodedRecordAt(file, b + 1, ps, i);
    }
    if |ps| < 50 {
      EncodedRecordAt(file, b + 1, ps, |ps|);
    }
    BlockPayloadsAre(file, b + 1, 0, ps);
  }

  lemma BlocksAre(data: seq<Byte>, blocks: seq<seq<seq<Byte>>>)
    requires forall b: nat | b < |blocks| :: BlockPayloads(data, b + 1, 0) == blocks[b]
    ensures Blocks(data, |blocks|) == blocks
  {
  }

  lemma NothingPastTheEnd(data: seq<Byte>, block: nat)
    requires |data| <= block * BLOCK_SIZE
    ensures BlockPayloads(data, block, 0) == []
  {
  }

  /** Round trip: whatever the header block holds, the loader sends exactly the payloads that were encoded, block
      after block and in order. */
  lemma EncodeThenDecode(header: seq<Byte>, blocks: seq<seq<seq<Byte>>>)
    requires |header| == 256 && Encodable(blocks)
    ensures DecodeFirmware(EncodeFirmware(header, blocks)) == Place(Flatten(blocks))
  {
    var file, n := EncodeFirmware(header, blocks), |blocks|;
    assert Payloads(file, n + 1) == Flatten(blocks) by {
      forall b: nat | b < n ensures BlockPayloads(file, b + 1, 0) == blocks[b] {
        BlockDecoded(header, blocks, b);
      }
      BlocksAre(file, blocks);
      OneMoreBlock(file, n);
      NothingPastTheEnd(file, n + 1);
    }
    assert |file| / BLOCK_SIZE == n + 1;
  }

  // ----- Window arithmetic -----

  function Total(payloads: seq<seq<Byte>>): nat {
    if payloads == [] then 0 else Total(payloads[..|payloads| - 1]) + |payloads[|payloads| - 1]|
  }

  lemma {:induction false} BlockSizes(data: seq<Byte>, block: nat, j: nat)
    ensures forall x | x in BlockPayloads(data, block, j) :: IsSize(|x|)
    decreases MAX_RECORDS - j
  {
    if BlockPayloads(data, block, j) == [] {
    } else {
      BlockSizes(data, block, j + 1);
    }
  }

  lemma {:induction false} PayloadSizes(data: seq<Byte>, n: nat)
    ensures forall x | x in Payloads(data, n) :: IsSize(|x|)
  {
    if n == 0 {
    } else {
      PayloadSizes(data, n - 1);
      BlockSizes(data, n, 0);
      OneMoreBlock(data, n - 1);
    }
  }

  lemma {:induction false} AddrInWindow(payloads: seq<seq<Byte>>)
    ensures START <= AddrAfter(payloads) <= END
  {
    if payloads == [] {
    } else {
      AddrInWindow(payloads[..|payloads| - 1]);
    }
  }

  /** Every transfer starts inside the window and ends at most three bytes past it. */
  lemma WritesStayNearWindow(data: seq<Byte>, k: nat)
    requires k < |DecodeFirmware(data)|
    ensures var w := DecodeFirmware(data)[k];
      0x8000 <= w.addr <= 0x9fff && 0 < |w.payload| && w.addr + |w.payload| - 1 <= 0x9fff + 3
  {
    var payloads := Payloads(data, |data| / BLOCK_SIZE);
    AddrInWindow(payloads[..k]);
    PayloadSizes(data, |data| / BLOCK_SIZE);
    assert payloads[k] in payloads;
  }

  predicate Straddles(payloads: seq<seq<Byte>>, k: nat)
    requires k < |payloads|
  {
    AddrAfter(payloads[..k]) + |payloads[k]| - 1 > END
  }

  // The address is where the bytes written so far would put it in a ring of the window's size.
  predicate OnTrack(payloads: seq<seq<Byte>>, k: nat)
    requires k <= |payloads|
  {
    AddrAfter(payloads[..k]) == START + Total(payloads[..k]) % WINDOW
  }

  lemma OneStep(payloads: seq<seq<Byte>>, k: nat)
    requires k < |payloads|
    ensures AddrAfter(payloads[..k + 1]) == NextAddr(AddrAfter(payloads[..k]), |payloads[k]|)
    ensures Total(payloads[..k + 1]) == Total(payloads[..k]) + |payloads[k]|
  {
    assert payloads[..k + 1][..k] == payloads[..k];
  }

  /** Up to any point the addresses follow the ring exactly as long as no payload has straddled its end. */
  lemma {:induction false} RingExactly(payloads: seq<seq<Byte>>, n: nat)
    requires n <= |payloads| && forall x | x in payloads :: IsSize(|x|)
    ensures (forall k: nat | k <= n :: OnTrack(payloads, k)) <==> (forall k: nat | k < n :: !Straddles(payloads, k))
  {
    if n == 0 {
      assert payloads[..0] == [];
    } else {
      RingExactly(payloads, n - 1);
      if OnTrack(payloads, n - 1) {
        TrackStep(payloads, n);
      }
    }
  }

  lemma TrackStep(payloads: seq<seq<Byte>>, n: nat)
    requires 0 < n <= |payloads| && OnTrack(payloads, n - 1) && forall x | x in payloads :: IsSize(|x|)
    ensures OnTrack(payloads, n) <==> !Straddles(payloads, n - 1)
  {
    OneStep(payloads, n - 1);
    assert payloads[n - 1] in payloads;
    StepOnTrack(Total(payloads[..n - 1]), |payloads[n - 1]|);
  }

  lemma StepOnTrack(total: nat, size: nat)
    requires IsSize(size)
    ensures var addr := START + total % WINDOW;
      NextAddr(addr, size) == START + (total + size) % WINDOW <==> addr + size - 1 <= END
  {
  }

  // The transfers of an upload, and the payload bytes before transfer `k`.
  function BytesBefore(data: seq<Byte>, k: nat): nat
    requires k <= |DecodeFirmware(data)|
  {
    Total(Payloads(data, |data| / BLOCK_SIZE)[..k])
  }

  /** Of any upload: up to transfer `n` each address is 0x8000 plus the bytes before it mod 0x2000, if and only
      if no transfer before `n` runs past the window's end. */
  lemma UploadFollowsRingExactly(data: seq<Byte>, n: nat)
    requires n < |DecodeFirmware(data)|
    ensures var w := DecodeFirmware(data);
      (forall k: nat | k <= n :: w[k].addr == 0x8000 + BytesBefore(data, k) % 0x2000) <==>
      (forall k: nat | k < n :: w[k].addr + |w[k].payload| - 1 <= 0x9fff)
  {
    var w, payloads := DecodeFirmware(data), Payloads(data, |data| / BLOCK_SIZE);
    PayloadSizes(data, |data| / BLOCK_SIZE);
    RingExactly(payloads, n);
    forall k: nat | k <= n
      ensures OnTrack(payloads, k) <==> w[k].addr == START + BytesBefore(data, k) % WINDOW
      ensures Straddles(payloads, k) <==> w[k].addr + |w[k].payload| - 1 > END
    {
    }
  }

  lemma {:induction false} FoursNeverStraddle(payloads: seq<seq<Byte>>, k: nat)
    requires k < |payloads| && forall x | x in payloads :: |x| == 4
    ensures !Straddles(payloads, k) && AddrAfter(payloads[..k]) % 4 == 0 && Total(payloads[..k]) == 4 * k
  {
    assert payloads[k] in payloads;
    AddrInWindow(payloads[..k]);
    if k == 0 {
      assert payloads[..0] == [];
    } else {
      assert payloads[k - 1] in payloads;
      FoursNeverStraddle(payloads, k - 1);
      OneStep(payloads, k - 1);
    }
  }

  /** If every record carries four bytes no transfer straddles: transfer `k` goes to 0x8000 plus 4k mod 0x2000. */
  lemma UploadOfFours(data: seq<Byte>, k: nat)
    requires k < |DecodeFirmware(data)| && forall w | w in DecodeFirmware(data) :: |w.payload| == 4
    ensures DecodeFirmware(data)[k].addr == 0x8000 + 4 * k % 0x2000
  {
    var w, payloads := DecodeFirmware(data), Payloads(data, |data| / BLOCK_SIZE);
    forall x | x in payloads ensures |x| == 4 {
      var i: nat :| i < |payloads| && payloads[i] == x;
      assert w[i] in w && w[i].payload == x;
    }
    forall i: nat | i < k ensures w[i].addr + |w[i].payload| - 1 <= END {
      FoursNeverStraddle(payloads, i);
    }
    FoursNeverStraddle(payloads, k);
    UploadFollowsRingExactly(data, k);
  }
}
