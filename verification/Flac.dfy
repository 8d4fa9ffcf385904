/**
 Reading sample rate, channels and length out of FLAC metadata, against the layout of metadata blocks in sections 8.1
 and 8.2 of RFC 9639. Bytes are integers from 0 to 255.
 */
module Flac {
  import opened Wrappers
  import opened Arithmetic

  datatype GovernanceError = FlacCorrupt | StreaminfoMissing | FlacTruncated | StreaminfoInvalid

  datatype Inspection = Inspection(sampleRateHz: nat, channels: nat, frames: nat)

  ghost predicate Bytes(s: seq<int>) {
    forall i :: 0 <= i < |s| ==> 0 <= s[i] < 256
  }

  const MAGIC := [0x66, 0x4C, 0x61, 0x43]

  // ---------------------------------------------------------------- big-endian numbers

  function FromBytes(s: seq<int>): int {
    if s == [] then 0 else FromBytes(s[..|s| - 1]) * 256 + s[|s| - 1]
  }

  function ToBytes(n: nat, k: nat): (s: seq<int>)
    ensures |s| == k
  {
    if k == 0 then [] else ToBytes(n / 256, k - 1) + [n % 256]
  }

  function Power256(k: nat): nat {
    if k == 0 then 1 else 256 * Power256(k - 1)
  }

  lemma {:induction false} BytesRoundTrip(n: nat, k: nat)
    requires n < Power256(k)
    ensures FromBytes(ToBytes(n, k)) == n && Bytes(ToBytes(n, k))
  {
    if k > 0 {
      BytesRoundTrip(n / 256, k - 1);
      assert ToBytes(n, k)[..k - 1] == ToBytes(n / 256, k - 1);
    }
  }

  lemma {:induction false} NumberRoundTrip(s: seq<int>)
    requires Bytes(s)
    ensures 0 <= FromBytes(s) < Power256(|s|)
    ensures ToBytes(FromBytes(s), |s|) == s
  {
    if s != [] {
      var init, last := s[..|s| - 1], s[|s| - 1];
      NumberRoundTrip(init);
      assert FromBytes(s) / 256 == FromBytes(init) && FromBytes(s) % 256 == last;
      assert s == init + [last];
    }
  }

  // ---------------------------------------------------------------- the reader

  /** The 64 bits behind the block and frame sizes: 20 of rate, 3 of channels, 5 of sample size, 36 of length. */
  function Unpack(packed: int): Result<Inspection, GovernanceError>
    requires packed >= 0
  {
    var sampleRateHz := packed / 0x1000_0000_0000 % 0x10_0000;
    var channels := packed / 0x200_0000_0000 % 8 + 1;
    var frames := packed % 0x10_0000_0000;
    if sampleRateHz <= 0 || frames <= 0 then Err(StreaminfoInvalid) else Ok(Inspection(sampleRateHz, channels, frames))
  }

  function BlockLength(header: seq<int>): int
    requires |header| >= 4
  {
    header[1] * 0x10000 + header[2] * 0x100 + header[3]
  }

  /** From the header of a block on. */
  ghost function Scan(rest: seq<int>): Result<Inspection, GovernanceError>
    requires Bytes(rest)
    decreases |rest|
  {
    if |rest| < 4 then Err(StreaminfoMissing)
    else
      var length := BlockLength(rest);
      if |rest| - 4 < length then Err(FlacTruncated)
      else if rest[0] % 128 == 0 then
        if length != 34 then Err(StreaminfoInvalid)
        else
          NumberRoundTrip(rest[14..22]);
          Unpack(FromBytes(rest[14..22]))
      else if rest[0] >= 128 then Err(StreaminfoMissing)
      else Scan(rest[4 + length..])
  }

  ghost function Inspect(file: seq<int>): Result<Inspection, GovernanceError>
    requires Bytes(file)
  {
    if |file| < 4 || file[..4] != MAGIC then Err(FlacCorrupt) else Scan(file[4..])
  }

  class FileHandle {
    const content: seq<int>
    var position: nat

    constructor (content: seq<int>)
      ensures this.content == content && position == 0
    {
      this.content := content;
      position := 0;
    }

    /** As many bytes as are asked for, or those that are left. */
    method Read(count: nat) returns (bytes: seq<int>)
      requires position <= |content|
      modifies this
      ensures position == old(position) + |bytes| <= |content|
      ensures bytes == content[old(position)..position]
      ensures |bytes| == if |content| - old(position) < count then |content| - old(position) else count
    {
      var until := if |content| - position < count then |content| else position + count;
      bytes := content[position..until];
      position := until;
    }
  }

  /** The loop over the blocks; every block moves the handle on by at least its header, so it ends. */
  method InspectFlac(handle: FileHandle) returns (r: Result<Inspection, GovernanceError>)
    requires handle.position == 0 && Bytes(handle.content)
    modifies handle
    ensures r == Inspect(handle.content)
  {
    var magic := handle.Read(4);
    assert |handle.content| >= 4 ==> magic == handle.content[..4];
    if magic != MAGIC {
      return Err(FlacCorrupt);
    }
    while true
      invariant 4 <= handle.position <= |handle.content|
      invariant Inspect(handle.content) == Scan(handle.content[handle.position..])
      decreases |handle.content| - handle.position
    {
      ghost var rest := handle.content[handle.position..];
      var header := handle.Read(4);
      if |header| != 4 {
        return Err(StreaminfoMissing);
      }
      SameHeader(rest, header);
      var isLast, blockType, blockLength := header[0] >= 128, header[0] % 128, BlockLength(header);
      var block := handle.Read(blockLength);
      if |block| != blockLength {
        return Err(FlacTruncated);
      }
      if blockType == 0 {
        if blockLength != 34 {
          return Err(StreaminfoInvalid);
        }
        assert block == rest[4..38];
        PackedSlice(rest, block);
        return Unpack(FromBytes(block[10..18]));
      }
      if isLast {
        return Err(StreaminfoMissing);
      }
      assert handle.content[handle.position..] == rest[4 + blockLength..];
    }
  }

  lemma SameHeader(rest: seq<int>, header: seq<int>)
    requires Bytes(rest) && |rest| >= 4 && header == rest[..4]
    ensures BlockLength(header) == BlockLength(rest) >= 0 && header[0] == rest[0]
  {}

  lemma PackedSlice(rest: seq<int>, block: seq<int>)
    requires Bytes(rest) && |rest| >= 38 && block == rest[4..38]
    ensures block[10..18] == rest[14..22] && FromBytes(block[10..18]) >= 0
  {
    assert block[10..18] == rest[14..22] by {
      forall i | 0 <= i < 8 ensures block[10..18][i] == rest[14..22][i] {}
    }
    NumberRoundTrip(rest[14..22]);
  }

  // ---------------------------------------------------------------- the layout

  /** A metadata block other than STREAMINFO. */
  datatype OtherBlock = OtherBlock(kind: int, payload: seq<int>)
  {
    ghost predicate Valid() {
      1 <= kind < 128 && |payload| < 0x100_0000 && Bytes(payload)
    }
  }

  /** STREAMINFO: ten bytes of block and frame sizes, the packed numbers, and a sixteen-byte digest. */
  datatype StreamInfo = StreamInfo(sizes: seq<int>, sampleRateHz: int, channels: int, bitsPerSample: int, frames: int, digest: seq<int>)
  {
    ghost predicate Valid() {
      && |sizes| == 10 && Bytes(sizes) && |digest| == 16 && Bytes(digest)
      && 0 < sampleRateHz < 0x10_0000 && 1 <= channels <= 8 && 1 <= bitsPerSample <= 32 && 0 < frames < 0x10_0000_0000
    }
  }

  function Header(last: bool, kind: int, length: nat): (s: seq<int>)
    ensures |s| == 4
  {
    [(if last then 128 else 0) + kind] + ToBytes(length, 3)
  }

  function Pack(info: StreamInfo): int {
    ((info.sampleRateHz * 8 + info.channels - 1) * 32 + info.bitsPerSample - 1) * 0x10_0000_0000 + info.frames
  }

  ghost function EncodeInfo(info: StreamInfo): (s: seq<int>)
    requires info.Valid()
    ensures |s| == 34
  {
    info.sizes + ToBytes(Pack(info), 8) + info.digest
  }

  function EncodeOther(block: OtherBlock): seq<int> {
    Header(false, block.kind, |block.payload|) + block.payload
  }

  /** Blocks of which none is the last. */
  function EncodeBlocks(blocks: seq<OtherBlock>): seq<int> {
    if blocks == [] then [] else EncodeOther(blocks[0]) + EncodeBlocks(blocks[1..])
  }

  ghost function EncodeFile(before: seq<OtherBlock>, last: bool, info: StreamInfo, rest: seq<int>): seq<int>
    requires info.Valid()
  {
    MAGIC + (EncodeBlocks(before) + (Header(last, 0, 34) + EncodeInfo(info) + rest))
  }

  lemma PackFits(info: StreamInfo)
    requires info.Valid()
    ensures 0 <= Pack(info) < Power256(8)
    ensures Unpack(Pack(info)) == Ok(Inspection(info.sampleRateHz, info.channels, info.frames))
  {
    var top := info.sampleRateHz * 8 + (info.channels - 1);
    var low := (info.bitsPerSample - 1) * 0x10_0000_0000 + info.frames;
    QuotientUnique(Pack(info), 0x1000_0000_0000, info.sampleRateHz, (info.channels - 1) * 0x200_0000_0000 + low);
    QuotientUnique(Pack(info), 0x200_0000_0000, top, low);
    QuotientUnique(top, 8, info.sampleRateHz, info.channels - 1);
    QuotientUnique(Pack(info), 0x10_0000_0000, top * 32 + info.bitsPerSample - 1, info.frames);
    EightBytes();
  }

  lemma EightBytes()
    ensures Power256(8) == 0x1_0000_0000_0000_0000 && Power256(3) == 0x100_0000
  {
    assert Power256(1) == 0x100;
    assert Power256(2) == 0x1_0000;
    assert Power256(3) == 0x100_0000;
    assert Power256(4) == 0x1_0000_0000;
    assert Power256(5) == 0x100_0000_0000;
    assert Power256(6) == 0x1_0000_0000_0000;
    assert Power256(7) == 0x100_0000_0000_0000;
  }

  lemma HeaderReads(last: bool, kind: int, length: nat, rest: seq<int>)
    requires 0 <= kind < 128 && length < 0x100_0000
    ensures var s := Header(last, kind, length) + rest;
      && Bytes(s[..4]) && s[4..] == rest
      && s[0] % 128 == kind && (s[0] >= 128 <==> last) && BlockLength(s) == length
  {
    EightBytes();
    BytesRoundTrip(length, 3);
    var b := ToBytes(length, 3);
    ThreeBytes(b);
    var s := Header(last, kind, length) + rest;
    assert s[1] == b[0] && s[2] == b[1] && s[3] == b[2];
  }

  lemma ThreeBytes(b: seq<int>)
    requires |b| == 3
    ensures FromBytes(b) == b[0] * 0x10000 + b[1] * 0x100 + b[2]
  {
    assert b[..2][..1][..0] == [];
    assert FromBytes(b[..2][..1]) == b[0];
    assert FromBytes(b[..2]) == b[0] * 256 + b[1];
  }

  /** STREAMINFO is read wherever the scan meets it, whatever follows. */
  lemma InfoScanned(last: bool, info: StreamInfo, rest: seq<int>)
    requires info.Valid() && Bytes(Header(last, 0, 34) + EncodeInfo(info) + rest)
    ensures Scan(Header(last, 0, 34) + EncodeInfo(info) + rest)
         == Ok(Inspection(info.sampleRateHz, info.channels, info.frames))
  {
    var s := Header(last, 0, 34) + EncodeInfo(info) + rest;
    HeaderReads(last, 0, 34, EncodeInfo(info) + rest);
    assert s == Header(last, 0, 34) + (EncodeInfo(info) + rest);
    assert s[14..22] == ToBytes(Pack(info), 8);
    PackFits(info);
    BytesRoundTrip(Pack(info), 8);
  }

  lemma OtherScanned(block: OtherBlock, tail: seq<int>)
    requires block.Valid() && Bytes(tail)
    ensures Bytes(EncodeOther(block) + tail) && Scan(EncodeOther(block) + tail) == Scan(tail)
  {
    var s := EncodeOther(block) + tail;
    assert s == Header(false, block.kind, |block.payload|) + (block.payload + tail);
    HeaderReads(false, block.kind, |block.payload|, block.payload + tail);
    assert forall i :: 0 <= i < 4 ==> s[i] == s[..4][i];
    assert s[4 + |block.payload|..] == tail;
  }

  lemma Associative(a: seq<int>, b: seq<int>, c: seq<int>)
    ensures (a + b) + c == a + (b + c)
  {}

  /** Other blocks are passed over, however many come first. */
  lemma {:induction false} BlocksScanned(blocks: seq<OtherBlock>, rest: seq<int>)
    requires (forall i :: 0 <= i < |blocks| ==> blocks[i].Valid()) && Bytes(rest)
    ensures Bytes(EncodeBlocks(blocks) + rest)
    ensures Scan(EncodeBlocks(blocks) + rest) == Scan(rest)
  {
    if blocks == [] {
      assert EncodeBlocks(blocks) + rest == rest;
    } else {
      BlocksScanned(blocks[1..], rest);
      OtherScanned(blocks[0], EncodeBlocks(blocks[1..]) + rest);
      Associative(EncodeOther(blocks[0]), EncodeBlocks(blocks[1..]), rest);
    }
  }

  lemma InfoBytes(last: bool, info: StreamInfo, rest: seq<int>)
    requires info.Valid() && Bytes(rest)
    ensures Bytes(Header(last, 0, 34) + EncodeInfo(info) + rest)
  {
    PackFits(info);
    BytesRoundTrip(Pack(info), 8);
    HeaderReads(last, 0, 34, []);
    assert Header(last, 0, 34) + [] == Header(last, 0, 34);
  }

  /** The reader returns exactly what was encoded, whatever blocks come before and whatever bytes after. */
  lemma ReaderInvertsLayout(before: seq<OtherBlock>, last: bool, info: StreamInfo, rest: seq<int>)
    requires (forall i :: 0 <= i < |before| ==> before[i].Valid()) && info.Valid() && Bytes(rest)
    ensures Bytes(EncodeFile(before, last, info, rest))
    ensures Inspect(EncodeFile(before, last, info, rest)) == Ok(Inspection(info.sampleRateHz, info.channels, info.frames))
  {
    var tail := Header(last, 0, 34) + EncodeInfo(info) + rest;
    InfoBytes(last, info, rest);
    BlocksScanned(before, tail);
    InfoScanned(last, info, rest);
    MagicFirst(EncodeBlocks(before) + tail);
  }

  lemma MagicFirst(tail: seq<int>)
    requires Bytes(tail)
    ensures Bytes(MAGIC + tail) && Inspect(MAGIC + tail) == Scan(tail)
  {
    assert (MAGIC + tail)[..4] == MAGIC && (MAGIC + tail)[4..] == tail;
  }

  // ---------------------------------------------------------------- and back

  /** The numbers of a packed word. */
  lemma Unpacked(packed: int, sizes: seq<int>, digest: seq<int>) returns (info: StreamInfo)
    requires 0 <= packed < Power256(8) && Unpack(packed).Ok?
    requires |sizes| == 10 && Bytes(sizes) && |digest| == 16 && Bytes(digest)
    ensures info.Valid() && info.sizes == sizes && info.digest == digest && Pack(info) == packed
    ensures Unpack(packed) == Ok(Inspection(info.sampleRateHz, info.channels, info.frames))
  {
    EightBytes();
    var high := packed / 0x10_0000_0000;
    Quotients(packed, high);
    Repacked(high);
    info := StreamInfo(sizes, high / 256, high / 32 % 8 + 1, high % 32 + 1, packed % 0x10_0000_0000, digest);
  }

  lemma Repacked(high: int)
    requires 0 <= high < 0x1000_0000
    ensures 0 <= high / 256 < 0x10_0000 && high / 256 % 0x10_0000 == high / 256
    ensures high == (high / 256 * 8 + high / 32 % 8) * 32 + high % 32
  {
    assert high / 32 / 8 == high / 256;
  }

  lemma Quotients(packed: int, high: int)
    requires packed >= 0 && high == packed / 0x10_0000_0000
    ensures packed / 0x200_0000_0000 == high / 32 && packed / 0x1000_0000_0000 == high / 256
  {}

  lemma HeaderIs(s: seq<int>)
    requires |s| >= 4 && Bytes(s)
    ensures 0 <= BlockLength(s) < 0x100_0000
    ensures Header(s[0] >= 128, s[0] % 128, BlockLength(s)) == s[..4]
  {
    var b := s[1..4];
    EightBytes();
    NumberRoundTrip(b);
    ThreeBytes(b);
    assert s[..4] == [s[0]] + b;
  }

  lemma InfoFirst(s: seq<int>) returns (last: bool, info: StreamInfo, rest: seq<int>)
    requires Bytes(s) && Scan(s).Ok? && s[0] % 128 == 0
    ensures info.Valid() && s == Header(last, 0, 34) + EncodeInfo(info) + rest
    ensures Scan(s) == Ok(Inspection(info.sampleRateHz, info.channels, info.frames))
  {
    HeaderIs(s);
    NumberRoundTrip(s[14..22]);
    info := InfoOf(s);
    last, rest := s[0] >= 128, s[38..];
    assert s == s[..4] + s[4..38] + s[38..];
  }

  lemma InfoOf(s: seq<int>) returns (info: StreamInfo)
    requires Bytes(s) && |s| >= 38 && FromBytes(s[14..22]) >= 0 && Unpack(FromBytes(s[14..22])).Ok?
    ensures info.Valid() && EncodeInfo(info) == s[4..38]
    ensures Unpack(FromBytes(s[14..22])) == Ok(Inspection(info.sampleRateHz, info.channels, info.frames))
  {
    NumberRoundTrip(s[14..22]);
    info := Unpacked(FromBytes(s[14..22]), s[4..14], s[22..38]);
    ThreeParts(s);
  }

  lemma ThreeParts(s: seq<int>)
    requires |s| >= 38
    ensures s[4..14] + s[14..22] + s[22..38] == s[4..38]
  {}

  lemma OtherFirst(s: seq<int>) returns (block: OtherBlock, tail: seq<int>)
    requires Bytes(s) && Scan(s).Ok? && s[0] % 128 != 0
    ensures block.Valid() && s == EncodeOther(block) + tail && Bytes(tail)
    ensures |tail| < |s| && Scan(tail) == Scan(s)
  {
    HeaderIs(s);
    var length := BlockLength(s);
    block, tail := OtherBlock(s[0] % 128, s[4..4 + length]), s[4 + length..];
    assert s == s[..4] + s[4..4 + length] + tail;
  }

  /** Whatever the reader accepts is laid out that way, with exactly the numbers it returns. */
  lemma {:induction false} ScanMeansEncoded(s: seq<int>)
    returns (before: seq<OtherBlock>, last: bool, info: StreamInfo, rest: seq<int>)
    requires Bytes(s) && Scan(s).Ok?
    ensures (forall i :: 0 <= i < |before| ==> before[i].Valid()) && info.Valid()
    ensures s == EncodeBlocks(before) + (Header(last, 0, 34) + EncodeInfo(info) + rest)
    ensures Scan(s) == Ok(Inspection(info.sampleRateHz, info.channels, info.frames))
    decreases |s|
  {
    if s[0] % 128 == 0 {
      last, info, rest := InfoFirst(s);
      before := [];
      assert [] + s == s;
    } else {
      var block, tail := OtherFirst(s);
      var others;
      others, last, info, rest := ScanMeansEncoded(tail);
      before := [block] + others;
      assert before[1..] == others;
      Associative(EncodeOther(block), EncodeBlocks(others), Header(last, 0, 34) + EncodeInfo(info) + rest);
    }
  }

  lemma AcceptedMeansEncoded(file: seq<int>)
    returns (before: seq<OtherBlock>, last: bool, info: StreamInfo, rest: seq<int>)
    requires Bytes(file) && Inspect(file).Ok?
    ensures (forall i :: 0 <= i < |before| ==> before[i].Valid()) && info.Valid()
    ensures file == EncodeFile(before, last, info, rest)
    ensures Inspect(file) == Ok(Inspection(info.sampleRateHz, info.channels, info.frames))
  {
    before, last, info, rest := ScanMeansEncoded(file[4..]);
    assert file == file[..4] + file[4..];
  }
}
