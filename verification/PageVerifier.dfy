/** Verifying the pages of a chunk, and reading again those that fail (archive/ar_wrap.c). */
module PageVerifier {
  import opened Lsns
  import opened Bytes
  import opened PageChecksum
  import PageHash

  const TRIES := 5

  // ----- The file being read -----

  /** What a read of at most `max` bytes at `pos` returns: nothing at the end of the file, otherwise at least one
      byte and possibly fewer than asked for. */
  function ReadFrom(file: seq<byte>, pos: nat, max: nat, extra: nat): (r: seq<byte>)
    ensures |r| <= max && (r == [] <==> max == 0 || pos >= |file|)
    ensures r != [] ==> pos + |r| <= |file| && r == file[pos..pos + |r|]
  {
    if max == 0 || pos >= |file| then []
    else
      var room := if max < |file| - pos then max else |file| - pos;
      file[pos..pos + if extra < room then 1 + extra else room]
  }

  /** `t` is `s` except for `k` bytes from `n` on. */
  predicate Patched(s: seq<byte>, t: seq<byte>, n: nat, k: nat) {
    |t| == |s| && n + k <= |s| && t[..n] == s[..n] && t[n + k..] == s[n + k..]
  }

  lemma PatchedTwice(s: seq<byte>, t: seq<byte>, u: seq<byte>, n: nat, k: nat, m: nat, j: nat)
    requires Patched(s, t, n, k) && Patched(t, u, m, j) && n <= m && m + j <= n + k
    ensures Patched(s, u, n, k)
  {
    assert u[..n] == u[..m][..n] == t[..m][..n] == t[..n];
    assert u[n + k..] == u[m + j..][n + k - m - j..] == t[m + j..][n + k - m - j..] == t[n + k..];
  }

  /** An open file that others may write to: `at(t)` is its content at the `t`-th read, and `extra(t)` decides
      how short that read is. */
  class Disk {
    const at: nat -> seq<byte>
    const extra: nat -> nat
    var clock: nat
    var pos: nat

    constructor (at: nat -> seq<byte>, extra: nat -> nat)
      ensures this.at == at && this.extra == extra && clock == 0 && pos == 0
    {
      this.at, this.extra, clock, pos := at, extra, 0, 0;
    }

    /** Nobody writes to the file. */
    ghost predicate Fixed(content: seq<byte>) { forall t: nat :: at(t) == content }

    /** `fstat`, at a moment before the next read. */
    method Size() returns (n: nat)
      modifies this`clock
      ensures n == |at(old(clock))| && clock == old(clock) + 1
    {
      n := |at(clock)|;
      clock := clock + 1;
    }

    method Seek(to: nat)
      modifies this`pos
      ensures pos == to
    {
      pos := to;
    }

    method Read(buf: array<byte>, n: nat, max: nat) returns (k: nat)
      requires n + max <= buf.Length
      modifies this, buf
      ensures k <= max && pos == old(pos) + k && clock == old(clock) + 1
      ensures buf[n..n + k] == ReadFrom(at(old(clock)), old(pos), max, extra(old(clock)))
      ensures Patched(old(buf[..]), buf[..], n, k)
    {
      var data := ReadFrom(at(clock), pos, max, extra(clock));
      k := |data|;
      forall i | 0 <= i < k {
        buf[n + i] := data[i];
      }
      clock, pos := clock + 1, pos + k;
    }
  }

  // ----- Whole pages -----

  /** `x` is a multiple of `p`. */
  predicate Divides(p: nat, x: nat)
    requires p > 0
    decreases x
  {
    x == 0 || (x >= p && Divides(p, x - p))
  }

  lemma {:induction false} DividesSum(p: nat, x: nat, y: nat)
    requires p > 0 && Divides(p, x) && Divides(p, y)
    ensures Divides(p, x + y)
    decreases x
  {
    if x > 0 {
      DividesSum(p, x - p, y);
      assert x + y - p == x - p + y;
    }
  }

  /** A test of one page. */
  type Check = seq<byte> -> bool

  function Passing(rd: Reader): Check { page => |page| >= DBMETASIZE && Passes(rd, page) }

  ghost predicate Tests(pass: Check, rd: Reader) {
    forall page {:trigger Passes(rd, page)} :: |page| >= DBMETASIZE ==> pass(page) == Passes(rd, page)
  }

  /** Every page in the first `n` bytes passes, counting back from `n`. */
  predicate PagesPass(pass: Check, s: seq<byte>, pagesize: nat, n: nat)
    requires pagesize > 0 && n <= |s|
    decreases n
  {
    n < pagesize || (pass(s[n - pagesize..n]) && PagesPass(pass, s, pagesize, n - pagesize))
  }

  lemma {:induction false} PagesPassPrefix(pass: Check, s: seq<byte>, t: seq<byte>, pagesize: nat, n: nat)
    requires pagesize > 0 && n <= |s| && n <= |t| && s[..n] == t[..n] && PagesPass(pass, s, pagesize, n)
    ensures PagesPass(pass, t, pagesize, n)
    decreases n
  {
    if n >= pagesize {
      assert s[n - pagesize..n] == s[..n][n - pagesize..] == t[n - pagesize..n];
      assert s[..n - pagesize] == s[..n][..n - pagesize] == t[..n - pagesize];
      PagesPassPrefix(pass, s, t, pagesize, n - pagesize);
    }
  }

  lemma {:induction false} FewerPages(pass: Check, s: seq<byte>, pagesize: nat, n: nat, m: nat)
    requires pagesize > 0 && n <= m <= |s| && Divides(pagesize, n) && Divides(pagesize, m)
    requires PagesPass(pass, s, pagesize, m)
    ensures PagesPass(pass, s, pagesize, n)
    decreases m
  {
    if n < m {
      DividesLess(pagesize, n, m);
      FewerPages(pass, s, pagesize, n, m - pagesize);
    }
  }

  lemma {:induction false} DividesLess(p: nat, n: nat, m: nat)
    requires p > 0 && Divides(p, n) && Divides(p, m) && n < m
    ensures n + p <= m
    decreases n
  {
    if n > 0 {
      DividesLess(p, n - p, m - p);
    }
  }

  /** If all pages of `s` pass, so does the one at `n`. */
  lemma {:induction false} PagePasses(pass: Check, s: seq<byte>, pagesize: nat, n: nat, end: nat)
    requires pagesize > 0 && n + pagesize <= end <= |s| && Divides(pagesize, end - n - pagesize)
    requires PagesPass(pass, s, pagesize, end)
    ensures pass(s[n..n + pagesize])
    decreases end
  {
    if end > n + pagesize {
      PagePasses(pass, s, pagesize, n, end - pagesize);
    }
  }

  // ----- Verifying and re-reading -----

  /** `s` from `n` on holds the `len` bytes of the file from `p` on. */
  predicate Mirrors(s: seq<byte>, n: nat, content: seq<byte>, p: nat, len: nat) {
    n + len <= |s| && p + len <= |content| && s[n..n + len] == content[p..p + len]
  }

  lemma MirrorsMore(s: seq<byte>, t: seq<byte>, n: nat, content: seq<byte>, p: nat, len: nat, k: nat)
    requires Mirrors(s, n, content, p, len) && Mirrors(t, n + len, content, p + len, k) && s[..n + len] == t[..n + len]
    ensures Mirrors(t, n, content, p, len + k)
  {
    assert t[n..n + len] == t[..n + len][n..] == s[n..n + len];
    assert t[n..n + len + k] == t[n..n + len] + t[n + len..n + len + k];
    assert content[p..p + len + k] == content[p..p + len] + content[p + len..p + len + k];
  }

  /** Reading a page again from an unchanged file leaves the bytes of the chunk as they were. */
  lemma MirrorsPatched(s: seq<byte>, t: seq<byte>, n: nat, page: nat, content: seq<byte>, start: nat, read: nat)
    requires Mirrors(s, 0, content, start, read) && n <= read
    requires Patched(s, t, n, page) && Mirrors(t, n, content, start + n, page)
    ensures Mirrors(t, 0, content, start, read)
  {
    forall i | 0 <= i < read ensures t[i] == content[start + i] {
      if i < n {
        assert t[i] == t[..n][i] == s[i] == s[0..read][i];
      } else if i < n + page {
        assert t[i] == t[n..n + page][i - n] == content[start + n..start + n + page][i - n];
      } else {
        assert t[i] == t[n + page..][i - n - page] == s[i] == s[0..read][i];
      }
    }
    assert t[0..read] == content[start..start + read];
  }

  /** Read a whole page again into the buffer at `n`. On an unchanged file this fails only at its end. */
  method Reread(disk: Disk, buf: array<byte>, n: nat, pagesize: nat, ghost content: seq<byte>) returns (ok: bool)
    requires pagesize > 0 && n + pagesize <= buf.Length
    modifies disk, buf
    ensures Patched(old(buf[..]), buf[..], n, pagesize) && disk.clock >= old(disk.clock)
    ensures disk.Fixed(content) ==> ok == (old(disk.pos) + pagesize <= |content|)
    ensures disk.Fixed(content) && ok ==> Mirrors(buf[..], n, content, old(disk.pos), pagesize)
  {
    ghost var p := disk.pos;
    var total := 0;
    while total < pagesize
      invariant total <= pagesize && disk.pos == p + total && disk.clock >= old(disk.clock)
      invariant Patched(old(buf[..]), buf[..], n, pagesize)
      invariant disk.Fixed(content) ==> total == 0 || Mirrors(buf[..], n, content, p, total)
    {
      ghost var before := buf[..];
      var nread := ReadMore(disk, buf, n, total, pagesize, p, content);
      PatchedTwice(old(buf[..]), before, buf[..], n, pagesize, n, pagesize);
      if nread <= 0 {
        return false;
      }
      total := total + nread;
    }
    ok := true;
  }

  method ReadMore(disk: Disk, buf: array<byte>, n: nat, total: nat, pagesize: nat, ghost p: nat,
                  ghost content: seq<byte>)
    returns (nread: nat)
    requires total < pagesize && n + pagesize <= buf.Length && disk.pos == p + total
    requires disk.Fixed(content) ==> total == 0 || Mirrors(buf[..], n, content, p, total)
    modifies disk, buf
    ensures total + nread <= pagesize && disk.pos == p + total + nread && disk.clock > old(disk.clock)
    ensures Patched(old(buf[..]), buf[..], n, pagesize)
    ensures disk.Fixed(content) && nread > 0 ==> Mirrors(buf[..], n, content, p, total + nread)
    ensures disk.Fixed(content) && nread == 0 ==> p + total >= |content|
  {
    ghost var before, clock := buf[..], disk.clock;
    nread := disk.Read(buf, n + total, pagesize - total);
    assert buf[n + total..n + total + nread] == buf[..][n + total..n + total + nread];
    PatchedTwice(before, before, buf[..], n, pagesize, n + total, nread);
    if disk.Fixed(content) && nread > 0 {
      assert disk.at(clock) == content;
      JoinRead(before, buf[..], n, content, p, total, nread);
    }
  }

  lemma JoinRead(s: seq<byte>, t: seq<byte>, n: nat, content: seq<byte>, p: nat, total: nat, k: nat)
    requires Patched(s, t, n + total, k) && (total == 0 || Mirrors(s, n, content, p, total))
    requires Mirrors(t, n + total, content, p + total, k)
    ensures Mirrors(t, n, content, p, total + k)
  {
    if total > 0 {
      MirrorsMore(s, t, n, content, p, total, k);
    }
  }

  // ----- When a chunk is accepted -----

  /** The bytes of `x` that make whole pages. */
  function WholeBytes(p: nat, x: nat): (w: nat)
    requires p > 0
    ensures w <= x
    decreases x
  {
    if x < p then 0 else p + WholeBytes(p, x - p)
  }

  lemma {:induction false} WholeBytesFacts(p: nat, x: nat)
    requires p > 0
    ensures var w := WholeBytes(p, x); x < w + p && Divides(p, w) && (Divides(p, x) ==> w == x)
    decreases x
  {
    if x >= p {
      WholeBytesFacts(p, x - p);
    }
  }

  /** Whether a file that nobody changes still has the whole page at `n`. */
  predicate Refetchable(content: seq<byte>, at: nat, pagesize: nat) { at + pagesize <= |content| }

  predicate AcceptedAt(
    pass: Check, content: seq<byte>, start: nat, read: nat, stale: seq<byte>, pagesize: nat, w: nat)
    requires pagesize > 0 && w <= read && start + read <= |content|
  {
    && PagesPass(pass, content[start..start + read], pagesize, w)
    && (w == read
        || (w + pagesize <= |stale| && pass(stale[w..w + pagesize]))
        || (Refetchable(content, start + w, pagesize) && pass(content[start + w..start + w + pagesize])))
  }

  /**
   When the `read` bytes from `start` of an unchanged file are accepted: their whole pages pass, and what is
   left over, if anything, is the beginning of a page that passes either with what the buffer happens to hold
   behind it (`stale`) or when it is read again as a whole.
   */
  predicate Accepted(pass: Check, content: seq<byte>, start: nat, read: nat, stale: seq<byte>, pagesize: nat)
    requires pagesize > 0 && start + read <= |content|
  {
    AcceptedAt(pass, content, start, read, stale, pagesize, WholeBytes(pagesize, read))
  }

  lemma WholePagesAccepted(pass: Check, content: seq<byte>, start: nat, read: nat, stale: seq<byte>, pagesize: nat)
    requires pagesize > 0 && start + read <= |content| && Divides(pagesize, read)
    ensures Accepted(pass, content, start, read, stale, pagesize) <==>
            PagesPass(pass, content[start..start + read], pagesize, read)
  {
    WholeBytesFacts(pagesize, read);
  }

  /** All pages that begin in the first `read` bytes pass. */
  predicate PagesUpTo(pass: Check, s: seq<byte>, pagesize: nat, read: nat, n: nat)
    requires pagesize > 0
  {
    read <= n <= |s| && Divides(pagesize, n) && PagesPass(pass, s, pagesize, n)
  }

  /** The page at `n` is as first read, or has been read again after it failed; what follows it is untouched. */
  predicate Here(pass: Check, s: seq<byte>, stale: seq<byte>, pagesize: nat, n: nat, content: seq<byte>, start: nat,
                 first: bool)
  {
    && |s| == |stale| && n <= |s|
    && (first ==> s[n..] == stale[n..])
    && (!first ==>
          && n + pagesize <= |s| && s[n + pagesize..] == stale[n + pagesize..]
          && Mirrors(s, n, content, start + n, pagesize) && !pass(stale[n..n + pagesize]))
  }

  /** What holds of an unchanged file after `n` bytes; `w` of the bytes read make whole pages. */
  predicate Tracking(pass: Check, s: seq<byte>, stale: seq<byte>, pagesize: nat, n: nat,
                     content: seq<byte>, start: nat, read: nat, w: nat, first: bool)
    requires pagesize > 0 && w <= read
  {
    && Mirrors(s, 0, content, start, read)
    && if n <= w then Divides(pagesize, w - n) && Here(pass, s, stale, pagesize, n, content, start, first)
       else n >= read && AcceptedAt(pass, content, start, read, stale, pagesize, w)
  }

  /** The state of the verification loop: `n` bytes are done. */
  predicate Checked(pass: Check, s: seq<byte>, pagesize: nat, n: nat)
    requires pagesize > 0
  {
    n <= |s| && Divides(pagesize, |s| - n) && Divides(pagesize, n) && PagesPass(pass, s, pagesize, n)
  }

  lemma PrefixOfFile(pass: Check, s: seq<byte>, pagesize: nat, n: nat, content: seq<byte>, start: nat, read: nat)
    requires pagesize > 0 && Mirrors(s, 0, content, start, read) && n <= read && PagesPass(pass, s, pagesize, n)
    ensures PagesPass(pass, content[start..start + read], pagesize, n)
  {
    assert s[..n] == s[0..read][..n];
    PagesPassPrefix(pass, s, content[start..start + read], pagesize, n);
  }

  lemma PageBehind(pass: Check, s: seq<byte>, stale: seq<byte>, pagesize: nat, n: nat,
                   content: seq<byte>, start: nat, first: bool)
    requires n + pagesize <= |s| && Here(pass, s, stale, pagesize, n, content, start, first)
    ensures Here(pass, s, stale, pagesize, n + pagesize, content, start, true)
  {
    if first {
      SamePage(s, stale, pagesize, n);
    }
  }

  lemma LastPagePasses(pass: Check, s: seq<byte>, stale: seq<byte>, pagesize: nat, n: nat,
                       content: seq<byte>, start: nat, read: nat, first: bool)
    requires pagesize > 0 && Mirrors(s, 0, content, start, read) && n <= read
    requires Here(pass, s, stale, pagesize, n, content, start, first)
    requires n + pagesize <= |s| && PagesPass(pass, s, pagesize, n) && pass(s[n..n + pagesize])
    ensures AcceptedAt(pass, content, start, read, stale, pagesize, n)
  {
    PrefixOfFile(pass, s, pagesize, n, content, start, read);
    if first {
      SamePage(s, stale, pagesize, n);
    }
  }

  lemma StepsOn(pass: Check, s: seq<byte>, stale: seq<byte>, pagesize: nat, n: nat,
                content: seq<byte>, start: nat, read: nat, w: nat, first: bool)
    requires 0 < pagesize && w <= read < w + pagesize
    requires Tracking(pass, s, stale, pagesize, n, content, start, read, w, first)
    requires n < read && n + pagesize <= |s| && PagesPass(pass, s, pagesize, n) && pass(s[n..n + pagesize])
    ensures Tracking(pass, s, stale, pagesize, n + pagesize, content, start, read, w, true)
  {
    if n < w {
      PageBehind(pass, s, stale, pagesize, n, content, start, first);
    } else {
      LastPagePasses(pass, s, stale, pagesize, n, content, start, read, first);
    }
  }

  lemma RefusedInside(pass: Check, s: seq<byte>, pagesize: nat, n: nat, content: seq<byte>, start: nat, read: nat,
                      w: nat)
    requires pagesize > 0 && Mirrors(s, 0, content, start, read) && n < w <= read && Divides(pagesize, w - n)
    requires n + pagesize <= |s| && !pass(s[n..n + pagesize])
    ensures !PagesPass(pass, content[start..start + read], pagesize, w)
  {
    var data := content[start..start + read];
    assert s[n..n + pagesize] == s[0..read][n..n + pagesize] == data[n..n + pagesize];
    if PagesPass(pass, data, pagesize, w) {
      PagePasses(pass, data, pagesize, n, w);
    }
  }

  lemma SamePage(s: seq<byte>, stale: seq<byte>, pagesize: nat, n: nat)
    requires |s| == |stale| && n + pagesize <= |s| && s[n..] == stale[n..]
    ensures s[n..n + pagesize] == stale[n..n + pagesize] && s[n + pagesize..] == stale[n + pagesize..]
  {
    assert s[n..n + pagesize] == s[n..][..pagesize] && stale[n..n + pagesize] == stale[n..][..pagesize];
    assert s[n + pagesize..] == s[n..][pagesize..] && stale[n + pagesize..] == stale[n..][pagesize..];
  }

  /** A page that failed and cannot be read again, or failed again after that, is the end. */
  lemma Refused(pass: Check, s: seq<byte>, stale: seq<byte>, pagesize: nat, n: nat,
                content: seq<byte>, start: nat, read: nat, w: nat, first: bool)
    requires 0 < pagesize && w <= read && Tracking(pass, s, stale, pagesize, n, content, start, read, w, first)
    requires n < read && n + pagesize <= |s| && !pass(s[n..n + pagesize])
    requires !first || !Refetchable(content, start + n, pagesize)
    ensures !AcceptedAt(pass, content, start, read, stale, pagesize, w)
  {
    if n < w {
      RefusedInside(pass, s, pagesize, n, content, start, read, w);
    } else if first {
      SamePage(s, stale, pagesize, n);
    }
  }

  lemma ReadAgain(pass: Check, s: seq<byte>, t: seq<byte>, stale: seq<byte>, pagesize: nat, n: nat,
                  content: seq<byte>, start: nat, read: nat, w: nat, first: bool)
    requires 0 < pagesize && w <= read && Tracking(pass, s, stale, pagesize, n, content, start, read, w, first)
    requires n < read && n + pagesize <= |s| && !pass(s[n..n + pagesize])
    requires Patched(s, t, n, pagesize) && Mirrors(t, n, content, start + n, pagesize)
    ensures Tracking(pass, t, stale, pagesize, n, content, start, read, w, false)
  {
    MirrorsPatched(s, t, n, pagesize, content, start, read);
    if first {
      SamePage(s, stale, pagesize, n);
    }
  }

  lemma AllDone(pass: Check, s: seq<byte>, stale: seq<byte>, pagesize: nat, n: nat,
                content: seq<byte>, start: nat, read: nat, w: nat, first: bool)
    requires 0 < pagesize && w <= read && Tracking(pass, s, stale, pagesize, n, content, start, read, w, first)
    requires read <= n && Checked(pass, s, pagesize, n)
    ensures AcceptedAt(pass, content, start, read, stale, pagesize, w)
  {
    if n <= w {
      PrefixOfFile(pass, s, pagesize, n, content, start, read);
    }
  }

  // ----- The loop -----

  /** Verify the page at `n`. */
  method CheckPage(rd: Reader, ghost pass: Check, buf: array<byte>, pagesize: nat, n: nat) returns (good: bool)
    requires Tests(pass, rd) && DBMETASIZE <= pagesize <= PageHash.WORD - 8
    requires Checked(pass, buf[..], pagesize, n) && n < buf.Length
    modifies buf
    ensures buf[..] == old(buf[..]) && n + pagesize <= buf.Length
    ensures good == pass(buf[..][n..n + pagesize])
    ensures good ==> Checked(pass, buf[..], pagesize, n + pagesize)
  {
    good := VerifyChecksum(rd, buf, n, pagesize);
    assert buf[n..n + pagesize] == buf[..][n..n + pagesize];
  }

  /** Go back to the page at `n` and read it again. */
  method Retry(ghost pass: Check, disk: Disk, buf: array<byte>, pagesize: nat, start: nat, n: nat,
               ghost content: seq<byte>)
    returns (again: bool)
    requires 0 < pagesize && n + pagesize <= buf.Length && Checked(pass, buf[..], pagesize, n)
    modifies disk, buf
    ensures disk.clock >= old(disk.clock)
    ensures again ==> Checked(pass, buf[..], pagesize, n) && Patched(old(buf[..]), buf[..], n, pagesize)
    ensures disk.Fixed(content) ==> again == Refetchable(content, start + n, pagesize)
    ensures disk.Fixed(content) && again ==> Mirrors(buf[..], n, content, start + n, pagesize)
  {
    disk.Seek(start + n);
    ghost var before := buf[..];
    again := Reread(disk, buf, n, pagesize, content);
    PagesPassPrefix(pass, before, buf[..], pagesize, n);
  }

  /**
   Check every page in the first `read` bytes of the buffer, which came from file position `start`. A page
   that fails is read again, at most five tries in all. On success every page up to `checked` passes. If the
   file is not being changed (`same`), the chunk is what the file holds and is accepted exactly as `Accepted`
   says.
   */
  method VerifyPages(rd: Reader, ghost pass: Check, disk: Disk, buf: array<byte>, pagesize: nat, start: nat, read: nat,
                     ghost content: seq<byte>, ghost same: bool)
    returns (ok: bool, ghost checked: nat, ghost tries: seq<nat>)
    requires Tests(pass, rd)
    requires DBMETASIZE <= pagesize <= PageHash.WORD - 8 && read <= buf.Length && Divides(pagesize, buf.Length)
    requires same ==> disk.Fixed(content) && Mirrors(buf[..], 0, content, start, read)
    modifies disk, buf
    ensures forall j :: 0 <= j < |tries| ==> tries[j] <= TRIES
    ensures disk.clock >= old(disk.clock) && (ok ==> disk.pos == start + read)
    ensures ok ==> PagesUpTo(pass, buf[..], pagesize, read, checked)
    ensures ok && same ==> Mirrors(buf[..], 0, content, start, read)
    ensures same ==> ok == Accepted(pass, content, start, read, old(buf[..]), pagesize)
  {
    var n, retry := 0, TRIES;
    tries := [];
    ghost var count, stale, w := 0, buf[..], WholeBytes(pagesize, read);
    WholeBytesFacts(pagesize, read);
    assert stale[0..] == buf[..][0..];
    while n < read
      invariant 0 < retry <= TRIES && count == TRIES - retry && disk.clock >= old(disk.clock)
      invariant Checked(pass, buf[..], pagesize, n)
      invariant same ==> Tracking(pass, buf[..], stale, pagesize, n, content, start, read, w, retry == TRIES)
      invariant forall j :: 0 <= j < |tries| ==> tries[j] <= TRIES
      decreases read - n, retry
    {
      ghost var s, first := buf[..], retry == TRIES;
      var good := CheckPage(rd, pass, buf, pagesize, n);
      count := count + 1;
      if good {
        if same {
          StepsOn(pass, s, stale, pagesize, n, content, start, read, w, first);
        }
        tries := tries + [count];
        n := n + pagesize;
        retry, count := TRIES, 0;
        continue;
      }
      retry := retry - 1;
      if retry == 0 {
        if same {
          Refused(pass, s, stale, pagesize, n, content, start, read, w, first);
        }
        return false, 0, tries + [count];
      }
      var again := Retry(pass, disk, buf, pagesize, start, n, content);
      if !again {
        if same {
          Refused(pass, s, stale, pagesize, n, content, start, read, w, first);
        }
        return false, 0, tries;
      }
      if same {
        ReadAgain(pass, s, buf[..], stale, pagesize, n, content, start, read, w, first);
      }
    }
    if same {
      AllDone(pass, buf[..], stale, pagesize, n, content, start, read, w, retry == TRIES);
    }
    disk.Seek(start + read);
    ok, checked := true, n;
  }
}
