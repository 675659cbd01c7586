/** Verifying the checksum a page carries (archive/ar_wrap.c, layouts of archive/ar_page.h). */
module PageChecksum {
  import opened Bytes
  import PageHash

  const DBMETASIZE := 512
  const TYPE_AT := 25
  const PAGE_CHECKSUM_AT := 28
  const META_CHECKSUM_AT := 492

  /** How to read a page: the byte order of this machine, whether the file was written on one of the other
      order, and the CRC-32C routine. */
  datatype Reader = Reader(order: Order, swapped: bool, crc: seq<byte> -> nat) {
    /** The order in which checksums are stored in the file. */
    function FileOrder(): Order { if swapped then (if order == Big then Little else Big) else order }
  }

  function PageType(page: seq<byte>): nat
    requires |page| > TYPE_AT
  {
    page[TYPE_AT] % 64
  }

  predicate IsMeta(page: seq<byte>)
    requires |page| > TYPE_AT
  {
    8 <= PageType(page) <= 10
  }

  predicate IsCrc32c(page: seq<byte>)
    requires |page| > TYPE_AT
  {
    page[TYPE_AT] / 64 % 2 == 1
  }

  /** A metadata page keeps its checksum near the end of its first 512 bytes and is summed only that far. */
  function ChecksumAt(page: seq<byte>): (r: nat)
    requires |page| >= DBMETASIZE
    ensures TYPE_AT < r && r + 4 <= DBMETASIZE
  {
    if IsMeta(page) then META_CHECKSUM_AT else PAGE_CHECKSUM_AT
  }

  function SummedLength(page: seq<byte>): (r: nat)
    requires |page| >= DBMETASIZE
    ensures ChecksumAt(page) + 4 <= r <= |page|
  {
    if IsMeta(page) then DBMETASIZE else |page|
  }

  function Replaced(page: seq<byte>, at: nat, four: seq<byte>): (r: seq<byte>)
    requires |four| == 4 && at + 4 <= |page|
    ensures |r| == |page|
  {
    page[..at] + four + page[at + 4..]
  }

  /** The sum of the page as if its checksum field were zero. */
  function Sum(rd: Reader, page: seq<byte>): nat
    requires |page| >= DBMETASIZE
  {
    var zeroed := Replaced(page, ChecksumAt(page), [0, 0, 0, 0])[..SummedLength(page)];
    if IsCrc32c(page) then rd.crc(zeroed) else PageHash.HashOf(zeroed)
  }

  function Stored(page: seq<byte>): seq<byte>
    requires |page| >= DBMETASIZE
  {
    page[ChecksumAt(page)..ChecksumAt(page) + 4]
  }

  /** The checksum in the page, in the byte order of its file, is the page's sum. */
  predicate Passes(rd: Reader, page: seq<byte>)
    requires |page| >= DBMETASIZE
  {
    Load(rd.FileOrder(), Stored(page)) == Sum(rd, page)
  }

  /** A page with its checksum filled in. */
  function Sealed(rd: Reader, page: seq<byte>): (r: seq<byte>)
    requires |page| >= DBMETASIZE
    ensures |r| == |page|
  {
    Replaced(page, ChecksumAt(page), Store(rd.FileOrder(), Sum(rd, page), 4))
  }

  lemma ReplacedKeeps(page: seq<byte>, four: seq<byte>)
    requires |page| >= DBMETASIZE && |four| == 4
    ensures var r := Replaced(page, ChecksumAt(page), four);
            && ChecksumAt(r) == ChecksumAt(page) && SummedLength(r) == SummedLength(page) && Stored(r) == four
            && Replaced(r, ChecksumAt(r), [0, 0, 0, 0]) == Replaced(page, ChecksumAt(page), [0, 0, 0, 0])
            && r[TYPE_AT] == page[TYPE_AT]
  {
  }

  /** The checksum of a page does not depend on the checksum field, so a sealed page passes, and no other
      content of the field does. */
  lemma PassesIffSealed(rd: Reader, page: seq<byte>, four: seq<byte>)
    requires |page| >= DBMETASIZE && |four| == 4 && Sum(rd, page) < PageHash.WORD
    ensures Passes(rd, Replaced(page, ChecksumAt(page), four)) <==>
            Replaced(page, ChecksumAt(page), four) == Sealed(rd, page)
  {
    ReplacedKeeps(page, four);
    var r, want := Replaced(page, ChecksumAt(page), four), Store(rd.FileOrder(), Sum(rd, page), 4);
    ReplacedKeeps(page, want);
    assert Sum(rd, r) == Sum(rd, page);
    FourBytes();
    LoadStore(rd.FileOrder(), Sum(rd, page), 4);
    StoreLoad(rd.FileOrder(), four);
  }

  lemma FourBytes()
    ensures Pow256(4) == PageHash.WORD
  {
    assert Pow256(1) == 256;
    assert Pow256(2) == 65536;
    assert Pow256(3) == 16777216;
  }

  method MyFlip(x: nat) returns (r: nat)
    requires x < PageHash.WORD
    ensures r == Bswap(x, 4)
  {
    var u8 := BigBytes(x, 4);
    var flipped := [u8[3], u8[2], u8[1], u8[0]];
    assert flipped == Rev(u8);
    r := BigValue(flipped);
  }

  method Sum32(rd: Reader, page: seq<byte>, crc: bool) returns (sum: nat)
    requires |page| <= PageHash.WORD - 8
    ensures sum == if crc then rd.crc(page) else PageHash.HashOf(page)
  {
    if crc {
      sum := rd.crc(page);
    } else {
      sum := PageHash.HashPage(page);
    }
  }

  lemma SliceStored(whole: seq<byte>, n: nat, pagesize: nat)
    requires DBMETASIZE <= pagesize && n + pagesize <= |whole|
    ensures var page := whole[n..n + pagesize];
            Stored(page) == whole[n + ChecksumAt(page)..n + ChecksumAt(page) + 4]
  {
  }

  lemma SliceReplaced(whole: seq<byte>, n: nat, pagesize: nat, a: nat, four: seq<byte>, size: nat)
    requires |four| == 4 && a + 4 <= size <= pagesize && n + pagesize <= |whole|
    ensures Replaced(whole, n + a, four)[n..n + size] == Replaced(whole[n..n + pagesize], a, four)[..size]
  {
    var l, r := Replaced(whole, n + a, four)[n..n + size], Replaced(whole[n..n + pagesize], a, four)[..size];
    forall i | 0 <= i < size ensures l[i] == r[i] {
      ReplacedAt(whole, n + a, four, n + i);
      ReplacedAt(whole[n..n + pagesize], a, four, i);
    }
  }

  lemma ReplacedAt(page: seq<byte>, at: nat, four: seq<byte>, i: nat)
    requires |four| == 4 && at + 4 <= |page| && i < |page|
    ensures Replaced(page, at, four)[i] == if at <= i < at + 4 then four[i - at] else page[i]
  {
  }

  lemma ReplacedBack(whole: seq<byte>, at: nat, four: seq<byte>)
    requires |four| == 4 && at + 4 <= |whole|
    ensures Replaced(Replaced(whole, at, four), at, whole[at..at + 4]) == whole
  {
  }

  /** A stored checksum as a number of this machine. */
  method Checksum(rd: Reader, four: seq<byte>) returns (chksum: nat)
    requires |four| == 4
    ensures chksum == Load(rd.FileOrder(), four)
  {
    chksum := Load(rd.order, four);
    if rd.swapped {
      FourBytes();
      StoreLoad(rd.order, four);
      BswapReverses(rd.order, four);
      chksum := MyFlip(chksum);
    }
  }

  /** Verify the page at `n` in the buffer. Its checksum field is zeroed and restored on the way. */
  method VerifyChecksum(rd: Reader, buf: array<byte>, n: nat, pagesize: nat) returns (ok: bool)
    requires DBMETASIZE <= pagesize <= PageHash.WORD - 8 && n + pagesize <= buf.Length
    modifies buf
    ensures buf[..] == old(buf[..])
    ensures ok == Passes(rd, buf[n..n + pagesize])
  {
    ghost var whole := buf[..];
    ghost var page := whole[n..n + pagesize];
    var tag := buf[n + TYPE_AT];
    var meta := tag % 64 == 8 || tag % 64 == 9 || tag % 64 == 10;
    var a := if meta then META_CHECKSUM_AT else PAGE_CHECKSUM_AT;
    var size := if meta then DBMETASIZE else pagesize;
    var orig := buf[n + a..n + a + 4];
    SliceStored(whole, n, pagesize);
    var chksum := Checksum(rd, orig);
    Put4(buf, n + a, [0, 0, 0, 0]);
    SliceReplaced(whole, n, pagesize, a, [0, 0, 0, 0], size);
    assert buf[n..n + size] == buf[..][n..n + size];
    var sum := Sum32(rd, buf[n..n + size], tag / 64 % 2 == 1);
    Put4(buf, n + a, orig);
    ReplacedBack(whole, n + a, [0, 0, 0, 0]);
    assert buf[n..n + pagesize] == buf[..][n..n + pagesize];
    ok := sum == chksum;
  }

  method Put4(buf: array<byte>, at: nat, four: seq<byte>)
    requires at + 4 <= buf.Length && |four| == 4
    modifies buf
    ensures buf[..] == Replaced(old(buf[..]), at, four)
  {
    buf[at], buf[at + 1], buf[at + 2], buf[at + 3] := four[0], four[1], four[2], four[3];
  }
}
