/** Two unchanged files whose every page is good, and which the archiver refuses all the same. */
module ArchiverCases {
  import opened Lsns
  import opened Bytes
  import opened PageChecksum
  import opened PageVerifier
  import opened Archiver
  import PageHash

  const PAGE := 512

  /** A page of zeros, but for a one at the end and the checksum that makes. */
  predicate IsSample(page: seq<byte>) {
    |page| == PAGE && forall i :: 0 <= i < PAGE ==> page[i] == if i == 28 || i == 511 then 1 else 0
  }

  /** Zeros, but for ones at `a` and `b`. */
  predicate TwoOnes(s: seq<byte>, a: nat, b: nat) {
    a < b < |s| && forall i :: 0 <= i < |s| ==> s[i] == if i == a || i == b then 1 else 0
  }

  lemma {:induction false} SumOfOnes(s: seq<byte>, a: nat, b: nat, n: nat)
    requires TwoOnes(s, a, b) && n <= |s|
    ensures PageHash.ByteSum(s[..n]) == (if a < n then 1 else 0) + if b < n then 1 else 0
    decreases n
  {
    if n > 0 {
      SumOfOnes(s, a, b, n - 1);
      assert s[..n][..n - 1] == s[..n - 1];
    }
  }

  lemma FourLittle(four: seq<byte>)
    requires |four| == 4 && four[1] == four[2] == four[3] == 0
    ensures Load(Little, four) == four[0]
  {
    var r := Rev(four);
    assert r[..3][..2][..1] == [0] && r[..3][..2] == [0, 0] && r[..3] == [0, 0, 0];
    assert BigValue([0]) == 0;
    assert BigValue([0, 0]) == 256 * BigValue([0, 0][..1]) + 0;
    assert BigValue([0, 0, 0]) == 256 * BigValue([0, 0, 0][..2]) + 0;
  }

  lemma SamplePasses(rd: Reader, page: seq<byte>)
    requires rd.FileOrder() == Little && IsSample(page)
    ensures Passes(rd, page)
  {
    var zeroed := Replaced(page, 28, [0, 0, 0, 0]);
    assert zeroed[..PAGE] == zeroed;
    forall i | 0 <= i < 511 ensures zeroed[..511][i] == 0 {
      ReplacedAt(page, 28, [0, 0, 0, 0], i);
    }
    PageHash.ZeroBytes(zeroed[..511]);
    ReplacedAt(page, 28, [0, 0, 0, 0], 511);
    FourLittle(Stored(page));
  }

  /** A page with a zero type, two ones outside the checksum field, and another number than theirs in it. */
  lemma TwoOnesFail(rd: Reader, page: seq<byte>, a: nat, b: nat)
    requires rd.FileOrder() == Little && |page| == PAGE && page[TYPE_AT] == 0 && a < b < PAGE
    requires TwoOnes(Replaced(page, 28, [0, 0, 0, 0]), a, b)
    requires page[29] == page[30] == page[31] == 0 && page[28] < 2
    ensures !Passes(rd, page)
  {
    var zeroed := Replaced(page, 28, [0, 0, 0, 0]);
    SumOfOnes(zeroed, a, b, PAGE);
    assert zeroed[..PAGE] == zeroed;
    PageHash.LowBits(zeroed);
    FourLittle(Stored(page));
  }

  lemma SampleFile(f: DbFile, page: seq<byte>, content: seq<byte>)
    requires f.Valid() && f.pass == Passing(f.rd) && f.rd.FileOrder() == Little && f.pagesize == PAGE
    requires IsSample(page) && content == page + page
    ensures f.good(content)
  {
    SamplePasses(f.rd, page);
    GoodMeans(f.good, f.accept, f.pass, f.pagesize, content);
    assert content[512..1024] == page && content[0..512] == page;
    assert Divides(PAGE, 512) && Divides(PAGE, 1024);
    assert PagesPass(f.pass, content, PAGE, 0) && PagesPass(f.pass, content, PAGE, 512);
  }

  /** The first byte of a good file is accepted, since its page passes when it is read as a whole. */
  lemma OneByteAccepted(f: DbFile, page: seq<byte>, content: seq<byte>, stale: seq<byte>)
    requires f.Valid() && f.pass == Passing(f.rd) && f.rd.FileOrder() == Little && f.pagesize == PAGE
    requires IsSample(page) && content == page + page
    ensures f.accept(content, 0, 1, stale)
  {
    SamplePasses(f.rd, page);
    AcceptMeans(f.good, f.accept, f.pass, f.pagesize, content, 0, 1, stale);
    assert WholeBytes(PAGE, 1) == 0;
    assert content[0 + 0..0 + 0 + PAGE] == page;
  }

  /** From the second byte on, nothing that looks like a page passes. */
  lemma ShiftedRefused(f: DbFile, page: seq<byte>, content: seq<byte>, stale: seq<byte>)
    requires f.Valid() && f.pass == Passing(f.rd) && f.rd.FileOrder() == Little && f.pagesize == PAGE
    requires IsSample(page) && content == page + page
    ensures !f.accept(content, 1, 1023, stale)
  {
    var data := content[1..1024];
    var shifted := data[0..PAGE];
    assert forall i :: 0 <= i < PAGE ==> shifted[i] == content[i + 1];
    var zeroed := Replaced(shifted, 28, [0, 0, 0, 0]);
    forall i | 0 <= i < PAGE ensures zeroed[i] == if i == 27 || i == 510 then 1 else 0 {
      ReplacedAt(shifted, 28, [0, 0, 0, 0], i);
    }
    TwoOnesFail(f.rd, shifted, 27, 510);
    AcceptMeans(f.good, f.accept, f.pass, f.pagesize, content, 1, 1023, stale);
    assert WholeBytes(PAGE, 1023) == 512 + WholeBytes(PAGE, 511);
    assert content[1..1 + 1023] == data && data[512 - PAGE..512] == shifted;
  }

  method FirstByte(page: seq<byte>, f: DbFile, disk: Disk, content: seq<byte>) returns (rc: int)
    requires IsSample(page) && content == page + page && disk.Fixed(content)
    requires disk.clock == 0 && disk.extra(1) == 0
    requires f.Valid() && f.pass == Passing(f.rd) && f.rd.FileOrder() == Little && f.pagesize == PAGE
    requires f.checksummed && f.offset == 0 && f.chunkSize == 1024
    modifies f`pagebuf, f`offset, f`sent, disk, f.pagebuf
    ensures f.Valid() && rc == 0 && f.offset == 1 && disk.clock > 1 && (f.pagebuf == old(f.pagebuf) || fresh(f.pagebuf))
  {
    BufferHoldsPages(f.pagesize, f.pagesize);
    var chunk;
    ghost var got, stale;
    assert disk.at(disk.clock) == content;
    rc, chunk, got, stale := f.ReadWrite(disk, true, 0, content);
    OneByteAccepted(f, page, content, stale);
  }

  method FromSecondByte(page: seq<byte>, f: DbFile, disk: Disk, content: seq<byte>) returns (rc: int)
    requires IsSample(page) && content == page + page && disk.Fixed(content) && disk.extra(disk.clock + 1) == 2000
    requires f.Valid() && f.pass == Passing(f.rd) && f.rd.FileOrder() == Little && f.pagesize == PAGE
    requires f.checksummed && f.offset == 1 && f.chunkSize == 1024
    modifies f`pagebuf, f`offset, f`sent, disk, f.pagebuf
    ensures f.offset == 1 && rc == 1
  {
    BufferHoldsPages(f.pagesize, f.pagesize);
    var chunk;
    ghost var got, stale;
    assert disk.at(disk.clock) == content;
    rc, chunk, got, stale := f.ReadWrite(disk, true, 0, content);
    ShiftedRefused(f, page, content, stale);
  }

  /**
   A first read that returns one byte of a good file: that byte is delivered, the offset is left inside the
   page, and the next call fails.
   */
  method ShortReadFails(crc: seq<byte> -> nat, page: seq<byte>, f: DbFile) returns (first: int, second: int)
    requires IsSample(page)
    requires f.Valid() && f.pass == Passing(f.rd) && f.rd == Reader(Little, false, crc) && f.pagesize == PAGE
    requires f.checksummed && f.offset == 0 && f.chunkSize == 1024
    modifies f, f.pagebuf
    ensures f.good(page + page) && first == 0 && f.offset == 1 && second == 1
  {
    var content := page + page;
    SampleFile(f, page, content);
    var disk := new Disk(_ => content, t => if t == 1 then 0 else 2000);
    first := FirstByte(page, f, disk, content);
    second := FromSecondByte(page, f, disk, content);
  }

  /** The one page of the file is accepted as the first chunk. */
  lemma FirstPageAccepted(f: DbFile, page: seq<byte>, content: seq<byte>, stale: seq<byte>)
    requires f.Valid() && f.pass == Passing(f.rd) && f.rd.FileOrder() == Little && f.pagesize == PAGE
    requires IsSample(page) && content == page + [1]
    ensures f.accept(content, 0, 512, stale)
  {
    SamplePasses(f.rd, page);
    assert Divides(PAGE, 512);
    AcceptWhole(f.good, f.accept, f.pass, f.pagesize, content, 0, 512, stale);
    assert content[0..0 + 512] == page;
    GoodMeans(f.good, f.accept, f.pass, f.pagesize, page);
    assert page[512 - PAGE..512] == page;
  }

  /** The byte behind it is not: with the rest of the first page behind it in the buffer it does not pass, and the
      file ends before a page could be read again. */
  lemma LeftOverRefused(f: DbFile, page: seq<byte>, content: seq<byte>, before: seq<byte>, stale: seq<byte>)
    requires f.Valid() && f.pass == Passing(f.rd) && f.rd.FileOrder() == Little && f.pagesize == PAGE
    requires IsSample(page) && content == page + [1]
    requires |before| >= PAGE && before[..PAGE] == page && Filled(before, content, 512, 1, stale)
    ensures !f.accept(content, 512, 1, stale)
  {
    var mixed := stale[0..PAGE];
    forall i | 0 <= i < PAGE ensures mixed[i] == if i == 0 then 1 else page[i] {
      assert before[i] == before[..PAGE][i];
    }
    var zeroed := Replaced(mixed, 28, [0, 0, 0, 0]);
    forall i | 0 <= i < PAGE ensures zeroed[i] == if i == 0 || i == 511 then 1 else 0 {
      ReplacedAt(mixed, 28, [0, 0, 0, 0], i);
    }
    TwoOnesFail(f.rd, mixed, 0, 511);
    AcceptMeans(f.good, f.accept, f.pass, f.pagesize, content, 512, 1, stale);
    assert WholeBytes(PAGE, 1) == 0;
  }

  method FirstPage(page: seq<byte>, f: DbFile, disk: Disk, content: seq<byte>) returns (rc: int)
    requires IsSample(page) && content == page + [1] && disk.Fixed(content) && forall t: nat :: disk.extra(t) == 2000
    requires f.Valid() && f.pass == Passing(f.rd) && f.rd.FileOrder() == Little && f.pagesize == PAGE
    requires f.checksummed && f.offset == 0 && f.chunkSize == 512
    modifies f`pagebuf, f`offset, f`sent, disk, f.pagebuf
    ensures f.Valid() && rc == 0 && f.offset == 512 && (f.pagebuf == old(f.pagebuf) || fresh(f.pagebuf))
    ensures f.pagebuf != null && f.pagebuf.Length >= PAGE && f.pagebuf[..PAGE] == page
  {
    BufferHoldsPages(f.pagesize, f.pagesize);
    var chunk;
    ghost var got, stale;
    assert disk.at(disk.clock) == content;
    rc, chunk, got, stale := f.ReadWrite(disk, true, 0, content);
    FirstPageAccepted(f, page, content, stale);
    assert f.pagebuf[..512] == chunk.value.data[0..512] == content[0..512] == page;
  }

  method ByteBehind(page: seq<byte>, f: DbFile, disk: Disk, content: seq<byte>) returns (rc: int)
    requires IsSample(page) && content == page + [1] && disk.Fixed(content)
    requires f.Valid() && f.pass == Passing(f.rd) && f.rd.FileOrder() == Little && f.pagesize == PAGE
    requires f.checksummed && f.offset == 512 && f.chunkSize == 512
    requires f.pagebuf != null && f.pagebuf.Length >= PAGE && f.pagebuf[..PAGE] == page
    modifies f`pagebuf, f`offset, f`sent, disk, f.pagebuf
    ensures f.offset == 512 && rc == 1
  {
    var chunk;
    ghost var got, stale;
    ghost var before := f.pagebuf[..];
    assert before[..PAGE] == page;
    assert disk.at(disk.clock) == content;
    rc, chunk, got, stale := f.ReadWrite(disk, true, 0, content);
    LeftOverRefused(f, page, content, before, stale);
  }

  /** A good page and one byte more, in chunks of one page: the second call fails. */
  method OddSizeFails(crc: seq<byte> -> nat, page: seq<byte>, f: DbFile) returns (first: int, second: int)
    requires IsSample(page)
    requires f.Valid() && f.pass == Passing(f.rd) && f.rd == Reader(Little, false, crc) && f.pagesize == PAGE
    requires f.checksummed && f.offset == 0 && f.chunkSize == 512
    modifies f, f.pagebuf
    ensures f.good(page) && first == 0 && f.offset == 512 && second == 1
  {
    SamplePasses(f.rd, page);
    GoodMeans(f.good, f.accept, f.pass, f.pagesize, page);
    assert Divides(PAGE, 512) && page[512 - PAGE..512] == page;
    var content := page + [1];
    var disk := new Disk(_ => content, _ => 2000);
    first := FirstPage(page, f, disk, content);
    second := ByteBehind(page, f, disk, content);
  }
}
