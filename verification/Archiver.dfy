/** Chunked copying of a database file that others may be writing to (archive/ar_wrap.c). */
module Archiver {
  import opened Lsns
  import opened Bytes
  import opened PageChecksum
  import opened PageVerifier
  import PageHash

  const MAX_BUF_SIZE := 4194304
  const DEFAULT_PAGE_SIZE := 4096

  // ----- The buffer -----

  /** The page size doubled as long as it stays within the largest buffer. */
  function BufferLength(size: nat): nat
    requires size > 0
    decreases MAX_BUF_SIZE - size
  {
    if 2 * size <= MAX_BUF_SIZE then BufferLength(2 * size) else size
  }

  /** The buffer holds whole pages, is within the limit whenever one page is, and could not be doubled again. */
  lemma {:induction false} BufferHoldsPages(p: nat, size: nat)
    requires 0 < p && 0 < size && Divides(p, size)
    ensures Divides(p, BufferLength(size)) && 2 * BufferLength(size) > MAX_BUF_SIZE
    ensures size <= BufferLength(size) && (size <= MAX_BUF_SIZE ==> BufferLength(size) <= MAX_BUF_SIZE)
    decreases MAX_BUF_SIZE - size
  {
    if 2 * size <= MAX_BUF_SIZE {
      DividesSum(p, size, size);
      BufferHoldsPages(p, 2 * size);
    }
  }

  method NewBuffer(pagesize: nat) returns (buf: array<byte>)
    requires pagesize > 0
    ensures fresh(buf) && buf.Length == BufferLength(pagesize)
  {
    var bufsize := pagesize;
    while 2 * bufsize <= MAX_BUF_SIZE
      invariant bufsize > 0 && BufferLength(bufsize) == BufferLength(pagesize)
      decreases MAX_BUF_SIZE - bufsize
    {
      bufsize := 2 * bufsize;
    }
    buf := new byte[bufsize];
  }

  // ----- Chunk by chunk -----

  datatype Chunk = Chunk(at: nat, data: seq<byte>)

  /** Each chunk starts where the one before it ended, and the last one ends at `offset`. */
  predicate Consecutive(chunks: seq<Chunk>, offset: nat) {
    if chunks == [] then offset == 0
    else
      var last := chunks[|chunks| - 1];
      last.at + |last.data| == offset && Consecutive(chunks[..|chunks| - 1], last.at)
  }

  function Concat(chunks: seq<Chunk>): seq<byte> {
    if chunks == [] then [] else Concat(chunks[..|chunks| - 1]) + chunks[|chunks| - 1].data
  }

  predicate FromFile(chunks: seq<Chunk>, content: seq<byte>) {
    forall i :: 0 <= i < |chunks| ==> Mirrors(chunks[i].data, 0, content, chunks[i].at, |chunks[i].data|)
  }

  /** Consecutive pieces of one file are a prefix of it: nothing is missing and nothing is repeated. */
  lemma {:induction false} ChunksArePrefix(chunks: seq<Chunk>, offset: nat, content: seq<byte>)
    requires Consecutive(chunks, offset) && FromFile(chunks, content)
    ensures offset <= |content| && Concat(chunks) == content[..offset]
    decreases |chunks|
  {
    if chunks != [] {
      var last := chunks[|chunks| - 1];
      assert Mirrors(last.data, 0, content, last.at, |last.data|);
      ChunksArePrefix(chunks[..|chunks| - 1], last.at, content);
      assert last.data == last.data[0..|last.data|];
      assert content[..offset] == content[..last.at] + content[last.at..offset];
    }
  }

  /** A judgement on a piece of the file, and one on a chunk of it that was read over what the buffer held. */
  type Judge = seq<byte> -> bool
  type Acceptance = (seq<byte>, nat, nat, seq<byte>) -> bool

  /** `good` is whole pages that all pass, `accept` that the verification loop accepts. */
  ghost predicate Judges(good: Judge, accept: Acceptance, pass: Check, pagesize: nat)
    requires pagesize > 0
  {
    && (forall s {:trigger PagesPass(pass, s, pagesize, |s|)} ::
          good(s) == (Divides(pagesize, |s|) && PagesPass(pass, s, pagesize, |s|)))
    && (forall content, start: nat, read: nat, stale {:trigger Accepted(pass, content, start, read, stale, pagesize)} ::
          start + read <= |content| ==>
            accept(content, start, read, stale) == Accepted(pass, content, start, read, stale, pagesize))
  }

  lemma GoodMeans(good: Judge, accept: Acceptance, pass: Check, pagesize: nat, s: seq<byte>)
    requires pagesize > 0 && Judges(good, accept, pass, pagesize)
    ensures good(s) == (Divides(pagesize, |s|) && PagesPass(pass, s, pagesize, |s|))
  {
    var passes := PagesPass(pass, s, pagesize, |s|);
    assert good(s) == (Divides(pagesize, |s|) && passes);
  }

  lemma AcceptMeans(good: Judge, accept: Acceptance, pass: Check, pagesize: nat, content: seq<byte>, start: nat,
                    read: nat, stale: seq<byte>)
    requires pagesize > 0 && Judges(good, accept, pass, pagesize) && start + read <= |content|
    ensures accept(content, start, read, stale) == Accepted(pass, content, start, read, stale, pagesize)
  {
  }

  lemma AcceptWhole(good: Judge, accept: Acceptance, pass: Check, pagesize: nat, content: seq<byte>, start: nat,
                    read: nat, stale: seq<byte>)
    requires pagesize > 0 && Judges(good, accept, pass, pagesize)
    requires start + read <= |content| && Divides(pagesize, read)
    ensures accept(content, start, read, stale) == good(content[start..start + read])
  {
    AcceptMeans(good, accept, pass, pagesize, content, start, read, stale);
    WholePagesAccepted(pass, content, start, read, stale, pagesize);
    GoodMeans(good, accept, pass, pagesize, content[start..start + read]);
  }

  class DbFile {
    /** The page size, or the default if the header gave none. */
    const pagesize: nat
    const checksummed: bool
    const rd: Reader
    ghost const pass: Check
    ghost const good: Judge
    ghost const accept: Acceptance
    var chunkSize: int
    var offset: nat
    var pagebuf: array?<byte>
    ghost var sent: seq<Chunk>

    constructor (pagesize: nat, checksummed: bool, rd: Reader)
      requires pagesize == 0 || DBMETASIZE <= pagesize <= PageHash.WORD - 8
      ensures Valid() && offset == 0 && sent == [] && pagebuf == null
      ensures this.pagesize == (if pagesize == 0 then DEFAULT_PAGE_SIZE else pagesize)
      ensures this.checksummed == checksummed && this.rd == rd
      ensures pass == Passing(rd) && Judges(good, accept, pass, this.pagesize)
    {
      this.pagesize := if pagesize == 0 then DEFAULT_PAGE_SIZE else pagesize;
      this.checksummed, this.rd := checksummed, rd;
      ghost var size: nat, check := if pagesize == 0 then DEFAULT_PAGE_SIZE else pagesize, Passing(rd);
      pass := check;
      good := s => Divides(size, |s|) && PagesPass(check, s, size, |s|);
      accept := (content: seq<byte>, start: nat, read: nat, stale: seq<byte>) =>
        start + read <= |content| && Accepted(check, content, start, read, stale, size);
      chunkSize, offset, pagebuf, sent := 0, 0, null, [];
    }

    ghost predicate Valid()
      reads this
    {
      && DBMETASIZE <= pagesize <= PageHash.WORD - 8 && Tests(pass, rd) && Judges(good, accept, pass, pagesize)
      && (pagebuf != null ==> pagebuf.Length == BufferLength(pagesize))
      && Consecutive(sent, offset)
    }

    /** The bytes the next call should deliver. */
    function Left(size: nat): int
      reads this
    {
      if size - offset < chunkSize then size - offset else chunkSize
    }

    method Buffer() returns (buf: array<byte>)
      requires Valid()
      modifies this`pagebuf
      ensures Valid() && pagebuf == buf && buf.Length == BufferLength(pagesize) && Divides(pagesize, buf.Length)
      ensures old(pagebuf) == null ==> fresh(buf)
      ensures old(pagebuf) != null ==> buf == old(pagebuf)
    {
      if pagebuf == null {
        pagebuf := NewBuffer(pagesize);
      }
      buf := pagebuf;
      BufferHoldsPages(pagesize, pagesize);
    }

    /** Fill the buffer from the file position `offset` on and verify it. The first read returns `got` bytes and
        leaves `stale` in the buffer; `read` is zero if the chunk is refused. */
    method Fetch(disk: Disk, buf: array<byte>, nbytes: nat, ghost content: seq<byte>)
      returns (read: nat, ghost got: nat, ghost stale: seq<byte>)
      requires DBMETASIZE <= pagesize <= PageHash.WORD - 8 && Tests(pass, rd) && Judges(good, accept, pass, pagesize)
      requires 0 < nbytes <= buf.Length && Divides(pagesize, buf.Length)
      modifies disk, buf
      ensures got == |ReadFrom(disk.at(old(disk.clock)), offset, nbytes, disk.extra(old(disk.clock)))|
      ensures (read == 0 || read == got) && (!checksummed ==> read == got)
      ensures disk.clock > old(disk.clock) && (read > 0 ==> disk.pos == offset + read)
      ensures disk.Fixed(content) && got > 0 ==>
                offset + got <= |content| && Filled(old(buf[..]), content, offset, got, stale)
      ensures disk.Fixed(content) && read > 0 ==> Mirrors(buf[..], 0, content, offset, read)
      ensures disk.Fixed(content) && got > 0 && checksummed ==>
                (read > 0 <==> accept(content, offset, got, stale))
      ensures read > 0 && checksummed && Divides(pagesize, read) ==> good(buf[..read])
    {
      disk.Seek(offset);
      ghost var before, clock := buf[..], disk.clock;
      read := disk.Read(buf, 0, nbytes);
      got, stale := read, buf[..];
      ghost var same := read > 0 && disk.Fixed(content);
      if same {
        assert disk.at(clock) == content;
        assert buf[0..read] == content[offset..offset + read];
        FilledBuffer(before, content, offset, read, stale);
      }
      if read > 0 && checksummed {
        var ok: bool;
        ghost var n: nat, tries: seq<nat>;
        ok, n, tries := VerifyPages(rd, pass, disk, buf, pagesize, offset, read, content, same);
        if !ok {
          read := 0;
        } else if Divides(pagesize, read) {
          OnlyRead(pass, buf[..], pagesize, read, n);
          assert buf[..read] == buf[..][..read];
          GoodMeans(good, accept, pass, pagesize, buf[..read]);
        }
      }
    }

    /**
     Hand the next chunk to the writer, which answers `answer`. The result is -1 if there is nothing left, 1 on
     an error and the writer's answer otherwise. The offset moves only when the writer took the chunk.
     The size is taken before the first read, which finds nothing if the file was cut in between. Without checksums
     every chunk that was read is delivered. With them, a chunk of an unchanged file is delivered exactly when it is
     accepted; `got` and `stale` are as in `Fetch`.
     */
    method ReadWrite(disk: Disk, regular: bool, answer: int, ghost content: seq<byte>)
      returns (rc: int, chunk: Option<Chunk>, ghost got: nat, ghost stale: seq<byte>)
      requires Valid() && chunkSize > 0 && Left(|disk.at(disk.clock)|) <= BufferLength(pagesize)
      modifies this`pagebuf, this`offset, this`sent, disk, pagebuf
      ensures Valid() && (pagebuf == old(pagebuf) || fresh(pagebuf))
      ensures rc == -1 <==> !regular || old(offset) >= |disk.at(old(disk.clock))|
      ensures rc != -1 ==> disk.clock > old(disk.clock) + 1
      ensures chunk.None? ==> offset == old(offset) && sent == old(sent) && (rc == -1 || rc == 1)
      ensures chunk.Some? ==>
                && chunk.value.at == old(offset) && rc == answer >= 0
                && |chunk.value.data| == got && offset == old(offset) + got
                && sent == old(sent) + [chunk.value]
                && pagebuf != null && got <= pagebuf.Length && pagebuf[..got] == chunk.value.data
      ensures rc != -1 ==> var t := old(disk.clock); var size := |disk.at(t)|;
                got == |ReadFrom(disk.at(t + 1), old(offset), old(Left(size)), disk.extra(t + 1))|
      ensures rc != -1 && got == 0 ==> old(offset) >= |disk.at(old(disk.clock) + 1)| && chunk.None?
      ensures rc != -1 && !checksummed ==> (chunk.Some? <==> got > 0 && answer >= 0)
      ensures rc != -1 && disk.Fixed(content) ==> got > 0 && old(offset) + got <= |content|
      ensures rc != -1 && disk.Fixed(content) && old(pagebuf) != null ==>
                Filled(old(pagebuf[..]), content, old(offset), got, stale)
      ensures rc != -1 && disk.Fixed(content) && checksummed ==>
                (chunk.Some? <==> answer >= 0 && accept(content, old(offset), got, stale))
      ensures chunk.Some? && disk.Fixed(content) ==> Mirrors(chunk.value.data, 0, content, old(offset), got)
      ensures chunk.Some? && checksummed && Divides(pagesize, got) ==> good(chunk.value.data)
    {
      chunk, got, stale := None, 0, [];
      if !regular {
        rc := -1;
        return;
      }
      var size := disk.Size();
      var bytesLeft := Left(size);
      if bytesLeft <= 0 {
        rc := -1;
        return;
      }
      var buf := Buffer();
      var read;
      read, got, stale := Fetch(disk, buf, bytesLeft, content);
      if read == 0 || answer < 0 {
        rc := 1;
        return;
      }
      var data := buf[..read];
      assert data == buf[..][0..read];
      chunk := Some(Chunk(offset, data));
      sent := sent + [chunk.value];
      offset := offset + read;
      rc := answer;
    }
  }

  lemma OnlyRead(pass: Check, s: seq<byte>, pagesize: nat, read: nat, n: nat)
    requires pagesize > 0 && PagesUpTo(pass, s, pagesize, read, n) && Divides(pagesize, read)
    ensures PagesPass(pass, s[..read], pagesize, read)
  {
    FewerPages(pass, s, pagesize, read, n);
    PagesPassPrefix(pass, s, s[..read], pagesize, read);
  }

  /** `after` is a buffer `before` after `n` bytes of the file were read into its front. */
  predicate Filled(before: seq<byte>, content: seq<byte>, offset: nat, n: nat, after: seq<byte>) {
    && |after| == |before| && n <= |after| && offset + n <= |content|
    && forall k :: 0 <= k < |after| ==> after[k] == if k < n then content[offset + k] else before[k]
  }

  lemma FilledBuffer(before: seq<byte>, content: seq<byte>, offset: nat, n: nat, after: seq<byte>)
    requires Patched(before, after, 0, n) && Mirrors(after, 0, content, offset, n)
    ensures Filled(before, content, offset, n, after)
  {
    forall k | 0 <= k < |after| ensures after[k] == if k < n then content[offset + k] else before[k] {
      if k < n {
        assert after[k] == after[0..n][k] == content[offset..offset + n][k];
      } else {
        assert after[k] == after[n..][k - n] == before[n..][k - n];
      }
    }
  }

  // ----- The whole file -----

  lemma SliceStart(pass: Check, s: seq<byte>, pagesize: nat, a: nat, m: nat, n: nat)
    requires pagesize > 0 && m <= n && a + n <= |s|
    ensures PagesPass(pass, s[a..a + n], pagesize, m) <==> PagesPass(pass, s[a..a + m], pagesize, m)
  {
    assert s[a..a + n][..m] == s[a..a + m][..m];
    if PagesPass(pass, s[a..a + n], pagesize, m) {
      PagesPassPrefix(pass, s[a..a + n], s[a..a + m], pagesize, m);
    }
    if PagesPass(pass, s[a..a + m], pagesize, m) {
      PagesPassPrefix(pass, s[a..a + m], s[a..a + n], pagesize, m);
    }
  }

  /** Pages up to `a` and pages from `a` on make pages up to the end. */
  lemma {:induction false} PagesJoin(pass: Check, s: seq<byte>, pagesize: nat, a: nat, n: nat)
    requires pagesize > 0 && a + n <= |s| && Divides(pagesize, n)
    requires PagesPass(pass, s, pagesize, a) && PagesPass(pass, s[a..a + n], pagesize, n)
    ensures PagesPass(pass, s, pagesize, a + n)
    decreases n
  {
    if n > 0 {
      var m := n - pagesize;
      assert s[a..a + n][m..n] == s[a + m..a + n];
      SliceStart(pass, s, pagesize, a, m, n);
      PagesJoin(pass, s, pagesize, a, m);
    }
  }

  lemma {:induction false} PagesSplit(pass: Check, s: seq<byte>, pagesize: nat, a: nat, n: nat)
    requires pagesize > 0 && a + n <= |s| && Divides(pagesize, n) && PagesPass(pass, s, pagesize, a + n)
    ensures PagesPass(pass, s[a..a + n], pagesize, n)
    decreases n
  {
    if n > 0 {
      var m := n - pagesize;
      assert s[a..a + n][m..n] == s[a + m..a + n];
      PagesSplit(pass, s, pagesize, a, m);
      SliceStart(pass, s, pagesize, a, m, n);
    }
  }

  /** Whole pages, chunks of whole pages, and reads that return all they are asked for. */
  ghost predicate PageByPage(disk: Disk, content: seq<byte>, pagesize: nat, chunkSize: int)
    requires pagesize > 0 && chunkSize > 0
  {
    && Divides(pagesize, |content|) && Divides(pagesize, chunkSize)
    && forall t: nat :: disk.extra(t) >= chunkSize
  }

  lemma {:induction false} DividesRest(p: nat, a: nat, x: nat)
    requires p > 0 && Divides(p, a) && Divides(p, x) && a <= x
    ensures Divides(p, x - a)
    decreases a
  {
    if a > 0 {
      DividesRest(p, a - p, x - p);
    }
  }

  lemma GoodChunk(good: Judge, accept: Acceptance, pass: Check, content: seq<byte>, pagesize: nat, offset: nat,
                  got: nat)
    requires pagesize > 0 && Judges(good, accept, pass, pagesize) && offset + got <= |content|
    requires good(content[..offset]) && good(content[offset..offset + got])
    ensures good(content[..offset + got])
  {
    GoodMeans(good, accept, pass, pagesize, content[offset..offset + got]);
    GoodUpTo(good, accept, pass, pagesize, content, offset);
    PagesJoin(pass, content, pagesize, offset, got);
    DividesSum(pagesize, got, offset);
    GoodUpTo(good, accept, pass, pagesize, content, offset + got);
  }

  lemma BadChunk(good: Judge, accept: Acceptance, pass: Check, content: seq<byte>, pagesize: nat, offset: nat, got: nat)
    requires pagesize > 0 && Judges(good, accept, pass, pagesize) && offset + got <= |content|
    requires Divides(pagesize, offset) && Divides(pagesize, got) && good(content)
    ensures good(content[offset..offset + got])
  {
    GoodMeans(good, accept, pass, pagesize, content);
    DividesSum(pagesize, got, offset);
    FewerPages(pass, content, pagesize, offset + got, |content|);
    PagesSplit(pass, content, pagesize, offset, got);
    GoodMeans(good, accept, pass, pagesize, content[offset..offset + got]);
  }

  lemma GoodUpTo(good: Judge, accept: Acceptance, pass: Check, pagesize: nat, s: seq<byte>, n: nat)
    requires pagesize > 0 && Judges(good, accept, pass, pagesize) && n <= |s|
    ensures good(s[..n]) == (Divides(pagesize, n) && PagesPass(pass, s, pagesize, n))
  {
    GoodMeans(good, accept, pass, pagesize, s[..n]);
    SliceStart(pass, s, pagesize, 0, n, |s|);
    assert s[0..0 + |s|] == s && s[0..0 + n] == s[..n];
  }

  /** One chunk, when everything is whole pages: if it fails, a page of the file does not pass, and if it does not,
      there are more pages that do. */
  lemma WholeStep(good: Judge, accept: Acceptance, pass: Check, content: seq<byte>, pagesize: nat, chunkSize: nat,
                  offset: nat, got: nat)
    requires pagesize > 0 && Divides(pagesize, |content|) && Divides(pagesize, chunkSize)
    requires Judges(good, accept, pass, pagesize) && offset <= |content| && good(content[..offset])
    requires got == if |content| - offset < chunkSize then |content| - offset else chunkSize
    ensures Divides(pagesize, got)
    ensures if good(content[offset..offset + got]) then good(content[..offset + got]) else !good(content)
  {
    GoodMeans(good, accept, pass, pagesize, content[..offset]);
    DividesRest(pagesize, offset, |content|);
    if good(content[offset..offset + got]) {
      GoodChunk(good, accept, pass, content, pagesize, offset, got);
    } else if good(content) {
      BadChunk(good, accept, pass, content, pagesize, offset, got);
    }
  }

  /** What was handed over so far: consecutive pieces of the file and, if it is whole pages (`whole`), pages that
      pass. */
  predicate CopiedTo(good: Judge, sent: seq<Chunk>, offset: nat, content: seq<byte>, out: seq<byte>, whole: bool)
  {
    && FromFile(sent, content) && offset <= |content| && out == Concat(sent)
    && (whole ==> good(content[..offset]))
  }

  lemma OneMoreChunk(good: Judge, sent: seq<Chunk>, chunk: Chunk, content: seq<byte>, out: seq<byte>, whole: bool)
    requires CopiedTo(good, sent, chunk.at, content, out, whole)
    requires Mirrors(chunk.data, 0, content, chunk.at, |chunk.data|)
    requires var end := chunk.at + |chunk.data|;
             end <= |content| && (whole ==> good(content[..end]))
    ensures CopiedTo(good, sent + [chunk], chunk.at + |chunk.data|, content, out + chunk.data, whole)
  {
    assert (sent + [chunk])[..|sent|] == sent;
  }

  /** One call, on an unchanged file and with a writer that takes the chunk, as far as whole pages go. */
  method WholeCall(f: DbFile, disk: Disk, ghost content: seq<byte>)
    returns (rc: int, chunk: Option<Chunk>, ghost got: nat)
    requires f.Valid() && 0 < f.chunkSize <= BufferLength(f.pagesize) && disk.Fixed(content) && f.offset <= |content|
    modifies f`pagebuf, f`offset, f`sent, disk, f.pagebuf
    ensures f.Valid() && (f.pagebuf == old(f.pagebuf) || fresh(f.pagebuf))
    ensures rc == -1 <==> old(f.offset) == |content|
    ensures chunk.None? ==>
              f.offset == old(f.offset) && f.sent == old(f.sent) && (rc == -1 || (rc == 1 && f.checksummed))
    ensures chunk.Some? ==>
              && rc == 0 && chunk.value.at == old(f.offset) && f.sent == old(f.sent) + [chunk.value]
              && f.offset == old(f.offset) + got && |chunk.value.data| == got
              && Mirrors(chunk.value.data, 0, content, old(f.offset), got)
    ensures rc != -1 ==> 0 < got <= |content| - old(f.offset)
    ensures rc != -1 && disk.extra(old(disk.clock) + 1) >= f.chunkSize ==> got == old(f.Left(|content|))
    ensures rc != -1 && f.checksummed && Divides(f.pagesize, got) ==>
              (chunk.Some? <==> f.good(content[old(f.offset)..old(f.offset) + got]))
  {
    ghost var at, stale := f.offset, [];
    assert disk.at(disk.clock) == content;
    rc, chunk, got, stale := f.ReadWrite(disk, true, 0, content);
    if rc != -1 && Divides(f.pagesize, got) {
      AcceptWhole(f.good, f.accept, f.pass, f.pagesize, content, at, got, stale);
    }
  }

  /** One call, on an unchanged file and with a writer that takes the chunk. */
  method NextChunk(f: DbFile, disk: Disk, ghost content: seq<byte>, ghost whole: bool)
    returns (rc: int, chunk: Option<Chunk>)
    requires f.Valid() && 0 < f.chunkSize <= BufferLength(f.pagesize) && disk.Fixed(content) && f.offset <= |content|
    requires whole ==> f.checksummed && PageByPage(disk, content, f.pagesize, f.chunkSize)
    requires whole ==> f.good(content[..f.offset])
    modifies f`pagebuf, f`offset, f`sent, disk, f.pagebuf
    ensures f.Valid() && (f.pagebuf == old(f.pagebuf) || fresh(f.pagebuf))
    ensures rc == -1 <==> old(f.offset) == |content|
    ensures chunk.None? ==>
              f.offset == old(f.offset) && f.sent == old(f.sent) && (rc == -1 || (rc == 1 && f.checksummed))
    ensures chunk.Some? ==>
              && rc == 0 && chunk.value.at == old(f.offset) && f.sent == old(f.sent) + [chunk.value]
              && f.offset == old(f.offset) + |chunk.value.data| > old(f.offset)
              && Mirrors(chunk.value.data, 0, content, old(f.offset), |chunk.value.data|)
    ensures chunk.Some? && whole ==> f.good(content[..f.offset])
    ensures rc == 1 && whole ==> !f.good(content)
  {
    ghost var clock, at, got := disk.clock, f.offset, 0;
    rc, chunk, got := WholeCall(f, disk, content);
    if whole && rc != -1 {
      assert disk.extra(clock + 1) >= f.chunkSize;
      WholeStep(f.good, f.accept, f.pass, content, f.pagesize, f.chunkSize, at, got);
    }
  }

  /**
   Call after call on a regular file that nobody writes to, with a writer that takes every chunk. What was
   handed over is a prefix of the file, and all of it exactly when the last call says so. Without checksums
   that is always the case. With them, when the file and the chunks are whole pages and no read is short, it
   is the case exactly if every page of the file passes.
   */
  method CopyFile(f: DbFile, disk: Disk, ghost content: seq<byte>) returns (rc: int, out: seq<byte>)
    requires f.Valid() && 0 < f.chunkSize <= BufferLength(f.pagesize) && f.offset == 0 && f.sent == []
    requires disk.Fixed(content)
    modifies f, disk, f.pagebuf
    ensures rc == -1 || rc == 1
    ensures f.offset <= |content| && out == Concat(f.sent) == content[..f.offset]
    ensures rc == -1 <==> out == content
    ensures !f.checksummed ==> rc == -1 && out == content
    ensures f.checksummed && PageByPage(disk, content, f.pagesize, old(f.chunkSize)) ==>
              (rc == -1 <==> PagesPass(f.pass, content, f.pagesize, |content|))
  {
    rc, out := 0, [];
    GoodMeans(f.good, f.accept, f.pass, f.pagesize, content[..0]);
    ghost var size := f.pagesize;
    ghost var whole := f.checksummed && PageByPage(disk, content, size, f.chunkSize);
    while rc == 0
      invariant f.Valid() && f.chunkSize == old(f.chunkSize) && (f.pagebuf == old(f.pagebuf) || fresh(f.pagebuf))
      invariant CopiedTo(f.good, f.sent, f.offset, content, out, whole)
      invariant rc == 0 || rc == -1 || (rc == 1 && f.checksummed)
      invariant rc != 0 ==> (rc == -1 <==> f.offset == |content|)
      invariant rc == 1 && whole ==> !f.good(content)
      decreases |content| - f.offset, rc == 0
    {
      ghost var sent := f.sent;
      var chunk;
      rc, chunk := NextChunk(f, disk, content, whole);
      if chunk.Some? {
        OneMoreChunk(f.good, sent, chunk.value, content, out, whole);
        out := out + chunk.value.data;
      }
    }
    ChunksArePrefix(f.sent, f.offset, content);
    assert content[..|content|] == content;
    GoodMeans(f.good, f.accept, f.pass, f.pagesize, content);
  }
}
