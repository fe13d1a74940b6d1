/** The on-disk superblock and the checksum that guards it. */
module Superblock {
  import opened Bits
  import opened Crc
  import opened CrcDivision
  import opened CrcWindow

  type U64 = n: nat | n < 0x1_0000_0000_0000_0000 witness 0

  /** `ZEROXFS1` in ASCII. */
  const MAGIC: seq<Byte> := [0x5A, 0x45, 0x52, 0x4F, 0x58, 0x46, 0x53, 0x31]

  type Magic = m: seq<Byte> | |m| == 8 witness [0, 0, 0, 0, 0, 0, 0, 0]

  datatype Superblock = Superblock(
    magic: Magic, version: Word, blockSize: Word, totalBlocks: U64, freeBlocks: U64,
    rootInode: U64, journalStart: U64, journalBlocks: U64, checksum: Word)

  /** `to_le_bytes`: the `n` lowest bytes, lowest first. */
  function LeBytes(v: nat, n: nat): (r: seq<Byte>)
    ensures |r| == n
    decreases n, v
  {
    if n == 0 then [] else [v % 0x100] + LeBytes(v / 0x100, n - 1)
  }

  function BytesNoChecksum(sb: Superblock): (r: seq<Byte>)
    ensures |r| == 56
  {
    sb.magic + LeBytes(sb.version, 4) + LeBytes(sb.blockSize, 4) + LeBytes(sb.totalBlocks, 8) +
      LeBytes(sb.freeBlocks, 8)
    + LeBytes(sb.rootInode, 8) + LeBytes(sb.journalStart, 8) + LeBytes(sb.journalBlocks, 8)
  }

  function ComputeChecksum(sb: Superblock): Word {
    Crc32(BytesNoChecksum(sb))
  }

  predicate Verify(sb: Superblock) {
    sb.magic == MAGIC && sb.checksum == ComputeChecksum(sb)
  }

  /** The serialization as it is built, field after field. */
  method Serialize(sb: Superblock) returns (v: seq<Byte>)
    ensures v == BytesNoChecksum(sb)
  {
    v := [];
    v := v + sb.magic;
    v := v + LeBytes(sb.version, 4);
    v := v + LeBytes(sb.blockSize, 4);
    v := v + LeBytes(sb.totalBlocks, 8);
    v := v + LeBytes(sb.freeBlocks, 8);
    v := v + LeBytes(sb.rootInode, 8);
    v := v + LeBytes(sb.journalStart, 8);
    v := v + LeBytes(sb.journalBlocks, 8);
  }

  /** A new superblock is valid. */
  method New(blockSize: Word, totalBlocks: U64) returns (sb: Superblock)
    ensures Verify(sb) && sb.blockSize == blockSize && sb.totalBlocks == sb.freeBlocks == totalBlocks
    ensures sb.magic == MAGIC && sb.version == 1 && sb.rootInode == 1 && sb.journalStart == 1
      && sb.journalBlocks == 1024
  {
    sb := Superblock(MAGIC, 1, blockSize, totalBlocks, totalBlocks, 1, 1, 1024, 0);
    ghost var before := sb;
    var v := Serialize(sb);
    var c := ComputeCrc32(v);
    sb := sb.(checksum := c);
    assert BytesNoChecksum(sb) == BytesNoChecksum(before);
  }

  // --------------------------------------------------------- the disk layout

  /** The number in some bytes, the lowest first. */
  function ReadLe(bytes: seq<Byte>): nat {
    if bytes == [] then 0 else bytes[0] + 256 * ReadLe(bytes[1..])
  }

  lemma {:induction false} LeRead(v: nat, n: nat)
    requires v < Power256(n)
    ensures ReadLe(LeBytes(v, n)) == v
    decreases n
  {
    if n > 0 { LeRead(v / 0x100, n - 1); }
  }

  /** Each byte is the base-256 digit of its place. */
  lemma {:induction false} LeDigit(v: nat, n: nat, k: nat)
    requires k < n
    ensures LeBytes(v, n)[k] == v / Power256(k) % 256
    decreases n
  {
    if k > 0 {
      LeDigit(v / 256, n - 1, k - 1);
      NextPlace(v, Power256(k - 1));
    }
  }

  lemma NextPlace(v: nat, p: nat)
    requires p > 0
    ensures v / 256 / p == v / (256 * p)
  {
    var q, r := v / 256 / p, v / 256 % p;
    assert v / 256 == q * p + r;
    assert v == q * (256 * p) + (256 * r + v % 256);
    DivUnique(v, 256 * p, q, 256 * r + v % 256);
  }

  /** `n` bytes of a text at place `at` read as the number `v`. */
  predicate HoldsAt(bytes: seq<Byte>, at: nat, n: nat, v: nat) {
    at + n <= |bytes| && ReadLe(bytes[at..at + n]) == v
  }

  lemma FieldAt(pre: seq<Byte>, v: nat, n: nat, post: seq<Byte>)
    requires v < Power256(n)
    ensures HoldsAt(pre + LeBytes(v, n) + post, |pre|, n, v)
  {
    LeRead(v, n);
    assert (pre + LeBytes(v, n) + post)[|pre|..|pre| + n] == LeBytes(v, n);
  }

  /** The eight fields on disk, each at its offset, lowest byte first. */
  lemma SerializedFields(sb: Superblock)
    ensures var b := BytesNoChecksum(sb);
      && |b| == 56 && b[..8] == sb.magic
      && HoldsAt(b, 8, 4, sb.version) && HoldsAt(b, 12, 4, sb.blockSize)
      && HoldsAt(b, 16, 8, sb.totalBlocks) && HoldsAt(b, 24, 8, sb.freeBlocks) && HoldsAt(b, 32, 8, sb.rootInode)
      && HoldsAt(b, 40, 8, sb.journalStart) && HoldsAt(b, 48, 8, sb.journalBlocks)
  {
    WordSizes();
    var a1 := sb.magic + LeBytes(sb.version, 4);
    var a2 := a1 + LeBytes(sb.blockSize, 4);
    var a3 := a2 + LeBytes(sb.totalBlocks, 8);
    var a4 := a3 + LeBytes(sb.freeBlocks, 8);
    var a5 := a4 + LeBytes(sb.rootInode, 8);
    var a6 := a5 + LeBytes(sb.journalStart, 8);
    var b := a6 + LeBytes(sb.journalBlocks, 8);
    Cut(sb.magic, LeBytes(sb.version, 4), b); FieldAt(sb.magic, sb.version, 4, b[12..]);
    Cut(a1, LeBytes(sb.blockSize, 4), b); FieldAt(a1, sb.blockSize, 4, b[16..]);
    Cut(a2, LeBytes(sb.totalBlocks, 8), b); FieldAt(a2, sb.totalBlocks, 8, b[24..]);
    Cut(a3, LeBytes(sb.freeBlocks, 8), b); FieldAt(a3, sb.freeBlocks, 8, b[32..]);
    Cut(a4, LeBytes(sb.rootInode, 8), b); FieldAt(a4, sb.rootInode, 8, b[40..]);
    Cut(a5, LeBytes(sb.journalStart, 8), b); FieldAt(a5, sb.journalStart, 8, b[48..]);
    Cut(a6, LeBytes(sb.journalBlocks, 8), b); FieldAt(a6, sb.journalBlocks, 8, b[56..]);
  }

  lemma Cut(pre: seq<Byte>, mid: seq<Byte>, all: seq<Byte>)
    requires pre + mid <= all
    ensures all == pre + mid + all[|pre| + |mid|..]
  {
  }

  /** What `verify` accepts: the eight letters ZEROXFS1, and a checksum whose
      complement `c` is the remainder of the serialization. */
  lemma VerifyExactly(sb: Superblock, c: Word)
    requires sb.checksum + c == 0xFFFF_FFFF
    ensures Verify(sb) <==>
      && sb.magic == [0x5A, 0x45, 0x52, 0x4F, 0x58, 0x46, 0x53, 0x31]
      && IsRemainder(Dividend(Message(BytesNoChecksum(sb))), BitsOf(c, 32), GENERATOR)
  {
    CrcIsRemainder(BytesNoChecksum(sb), sb.checksum, c);
  }

  /** The eight letters. */
  lemma MagicText(i: nat)
    requires i < 8
    ensures MAGIC[i] == "ZEROXFS1"[i] as int
  {
  }

  // ------------------------------------------------------- what bytes determine

  lemma {:induction false} LeInjective(a: nat, b: nat, n: nat)
    requires a < Power256(n) && b < Power256(n)
    ensures LeBytes(a, n) == LeBytes(b, n) <==> a == b
    decreases n
  {
    if n > 0 {
      LeInjective(a / 0x100, b / 0x100, n - 1);
      if LeBytes(a, n) == LeBytes(b, n) {
        assert LeBytes(a, n)[0] == LeBytes(b, n)[0];
        assert LeBytes(a, n)[1..] == LeBytes(b, n)[1..];
      }
    }
  }

  /** Equal prefixes of equal length can be cut off. */
  lemma CutEqual(a: seq<Byte>, b: seq<Byte>, c: seq<Byte>, d: seq<Byte>)
    requires |b| == |d|
    ensures a + b == c + d <==> a == c && b == d
  {
    if a + b == c + d {
      assert |a| == |c|;
      assert a == (a + b)[..|a|] && c == (c + d)[..|a|];
      assert b == (a + b)[|a|..] && d == (c + d)[|a|..];
    }
  }

  /** Two superblocks have the same bytes exactly when they agree in every field but
      the checksum. */
  lemma BytesInjective(a: Superblock, b: Superblock)
    ensures BytesNoChecksum(a) == BytesNoChecksum(b) <==> a.(checksum := b.checksum) == b
  {
    WordSizes();
    LeInjective(a.version, b.version, 4);
    LeInjective(a.blockSize, b.blockSize, 4);
    LeInjective(a.totalBlocks, b.totalBlocks, 8);
    LeInjective(a.freeBlocks, b.freeBlocks, 8);
    LeInjective(a.rootInode, b.rootInode, 8);
    LeInjective(a.journalStart, b.journalStart, 8);
    LeInjective(a.journalBlocks, b.journalBlocks, 8);
    FieldsEqual(a, b);
  }

  lemma FieldsEqual(a: Superblock, b: Superblock)
    ensures BytesNoChecksum(a) == BytesNoChecksum(b) <==>
      && a.magic == b.magic && LeBytes(a.version, 4) == LeBytes(b.version, 4)
      && LeBytes(a.blockSize, 4) == LeBytes(b.blockSize, 4)
      && LeBytes(a.totalBlocks, 8) == LeBytes(b.totalBlocks, 8) && LeBytes(a.freeBlocks, 8) == LeBytes(b.freeBlocks, 8)
      && LeBytes(a.rootInode, 8) == LeBytes(b.rootInode, 8) && LeBytes(a.journalStart, 8) == LeBytes(b.journalStart, 8)
      && LeBytes(a.journalBlocks, 8) == LeBytes(b.journalBlocks, 8)
  {
    var a1, b1 := a.magic + LeBytes(a.version, 4), b.magic + LeBytes(b.version, 4);
    var a2, b2 := a1 + LeBytes(a.blockSize, 4), b1 + LeBytes(b.blockSize, 4);
    var a3, b3 := a2 + LeBytes(a.totalBlocks, 8), b2 + LeBytes(b.totalBlocks, 8);
    var a4, b4 := a3 + LeBytes(a.freeBlocks, 8), b3 + LeBytes(b.freeBlocks, 8);
    var a5, b5 := a4 + LeBytes(a.rootInode, 8), b4 + LeBytes(b.rootInode, 8);
    var a6, b6 := a5 + LeBytes(a.journalStart, 8), b5 + LeBytes(b.journalStart, 8);
    CutEqual(a.magic, LeBytes(a.version, 4), b.magic, LeBytes(b.version, 4));
    CutEqual(a1, LeBytes(a.blockSize, 4), b1, LeBytes(b.blockSize, 4));
    CutEqual(a2, LeBytes(a.totalBlocks, 8), b2, LeBytes(b.totalBlocks, 8));
    CutEqual(a3, LeBytes(a.freeBlocks, 8), b3, LeBytes(b.freeBlocks, 8));
    CutEqual(a4, LeBytes(a.rootInode, 8), b4, LeBytes(b.rootInode, 8));
    CutEqual(a5, LeBytes(a.journalStart, 8), b5, LeBytes(b.journalStart, 8));
    CutEqual(a6, LeBytes(a.journalBlocks, 8), b6, LeBytes(b.journalBlocks, 8));
  }

  // ------------------------------------------------------ what verify detects

  /** A valid superblock whose bytes are altered only inside four consecutive bytes,
      under the same checksum, verifies exactly when nothing was altered. */
  lemma AlterationFails(a: Superblock, b: Superblock, lo: nat, hi: nat)
    requires Verify(a) && a.checksum == b.checksum
    requires SameOutside(BytesNoChecksum(a), BytesNoChecksum(b), lo, hi) && hi - lo <= 4
    ensures Verify(b) <==> a == b
  {
    WindowDetected(BytesNoChecksum(a), BytesNoChecksum(b), lo, hi);
    BytesInjective(a, b);
  }

  function AfterBlockSize(sb: Superblock): seq<Byte> {
    LeBytes(sb.totalBlocks, 8) + LeBytes(sb.freeBlocks, 8) + LeBytes(sb.rootInode, 8)
    + LeBytes(sb.journalStart, 8) + LeBytes(sb.journalBlocks, 8)
  }

  lemma WordAt(pre: seq<Byte>, mid: seq<Byte>, mid': seq<Byte>, post: seq<Byte>)
    requires |mid| == |mid'|
    ensures SameOutside(pre + mid + post, pre + mid' + post, |pre|, |pre| + |mid|)
  {
  }

  lemma BytesAround(sb: Superblock)
    ensures BytesNoChecksum(sb) == sb.magic + LeBytes(sb.version, 4) + (LeBytes(sb.blockSize, 4) + AfterBlockSize(sb))
    ensures BytesNoChecksum(sb) == (sb.magic + LeBytes(sb.version, 4)) + LeBytes(sb.blockSize, 4) + AfterBlockSize(sb)
  {
  }

  /** In particular any change of the version number is found, */
  lemma VersionGuarded(a: Superblock, w: Word)
    requires Verify(a)
    ensures Verify(a.(version := w)) <==> w == a.version
  {
    var b := a.(version := w);
    BytesAround(a);
    BytesAround(b);
    WordAt(a.magic, LeBytes(a.version, 4), LeBytes(w, 4), LeBytes(a.blockSize, 4) + AfterBlockSize(a));
    AlterationFails(a, b, 8, 12);
  }

  /** and any change of the block size. */
  lemma BlockSizeGuarded(a: Superblock, w: Word)
    requires Verify(a)
    ensures Verify(a.(blockSize := w)) <==> w == a.blockSize
  {
    var b := a.(blockSize := w);
    BytesAround(a);
    BytesAround(b);
    WordAt(a.magic + LeBytes(a.version, 4), LeBytes(a.blockSize, 4), LeBytes(w, 4), AfterBlockSize(a));
    AlterationFails(a, b, 12, 16);
  }
}
