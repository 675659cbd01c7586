/** Bounded wire encoding with sticky failure (bbinc/endian_core*.h). */
module WireBuffer {
  import opened Lsns
  import opened Bytes

  /** The byte order of the machine decides which of the two sets of copying routines is compiled in. */
  datatype Host = LittleHost | BigHost {
    function Order(): Order { if LittleHost? then Little else Big }
  }

  /** Which byte order the wire has; `NoNet` copies as is. */
  datatype Mode = Net | LittleWire | NoNet

  predicate IntSize(n: nat) { n == 2 || n == 4 || n == 8 }

  /** What a copy of `s` through the routine for `mode` leaves at the destination. */
  function Moved(host: Host, mode: Mode, s: seq<byte>): (r: seq<byte>)
    ensures |r| == |s|
  {
    if IntSize(|s|) && ((host == LittleHost && mode == Net) || (host == BigHost && mode == LittleWire)) then Rev(s)
    else s
  }

  predicate Fits(chk: Option<nat>, end: Option<nat>, len: nat) {
    chk.Some? && end.Some? && chk.value <= end.value && len <= end.value - chk.value
  }

  /** Store `s` into the bytes of `dst` from `at`. */
  method Copy(dst: array<byte>, at: nat, s: seq<byte>)
    requires at + |s| <= dst.Length
    modifies dst
    ensures dst[..] == old(dst[..at]) + s + old(dst[at + |s|..])
  {
    forall i | 0 <= i < |s| {
      dst[at + i] := s[i];
    }
  }

  /** The routine of a little-endian host for network order: integers go through a byte swap instruction. */
  method PutNetLittleHost(src: seq<byte>, dst: array<byte>, at: Option<nat>, end: Option<nat>)
    returns (next: Option<nat>)
    requires end.Some? ==> end.value <= dst.Length
    modifies dst
    ensures next == if Fits(at, end, |src|) then Some(at.value + |src|) else None
    ensures dst[..] == if next.Some? then Written(old(dst[..]), at.value, Moved(LittleHost, Net, src)) else old(dst[..])
  {
    if at.None? || end.None? {
      return None;
    }
    if end.value < at.value || |src| > end.value - at.value {
      return None;
    }
    if IntSize(|src|) {
      BswapReverses(Little, src);
      Copy(dst, at.value, Store(Little, Bswap(Load(Little, src), |src|), |src|));
    } else {
      Copy(dst, at.value, src);
    }
    next := Some(at.value + |src|);
  }

  /** The routine of a big-endian host for little-endian order: integers are reversed byte by byte. */
  method PutLittleBigHost(src: seq<byte>, dst: array<byte>, at: Option<nat>, end: Option<nat>)
    returns (next: Option<nat>)
    requires end.Some? ==> end.value <= dst.Length
    modifies dst
    ensures next == if Fits(at, end, |src|) then Some(at.value + |src|) else None
    ensures dst[..] == if next.Some? then Written(old(dst[..]), at.value, Moved(BigHost, LittleWire, src))
                       else old(dst[..])
  {
    if at.None? || end.None? {
      return None;
    }
    if end.value < at.value || |src| > end.value - at.value {
      return None;
    }
    var stored := src;
    if |src| == 2 {
      stored := [src[1], src[0]];
    } else if |src| == 4 {
      stored := [src[3], src[2], src[1], src[0]];
    } else if |src| == 8 {
      stored := [src[7], src[6], src[5], src[4], src[3], src[2], src[1], src[0]];
    }
    assert stored == Moved(BigHost, LittleWire, src);
    Copy(dst, at.value, stored);
    next := Some(at.value + |src|);
  }

  /** Every other combination copies. */
  method PutPlain(host: Host, mode: Mode, src: seq<byte>, dst: array<byte>, at: Option<nat>, end: Option<nat>)
    returns (next: Option<nat>)
    requires end.Some? ==> end.value <= dst.Length
    requires mode == NoNet || (host == LittleHost && mode == LittleWire) || (host == BigHost && mode == Net)
    modifies dst
    ensures next == if Fits(at, end, |src|) then Some(at.value + |src|) else None
    ensures dst[..] == if next.Some? then Written(old(dst[..]), at.value, Moved(host, mode, src)) else old(dst[..])
  {
    if at.None? || end.None? {
      return None;
    }
    if end.value < at.value || |src| > end.value - at.value {
      return None;
    }
    Copy(dst, at.value, src);
    next := Some(at.value + |src|);
  }

  /** Reading `len` bytes at the cursor; the bound is checked against the buffer that is read. */
  method Get(host: Host, mode: Mode, len: nat, src: array<byte>, at: Option<nat>, end: Option<nat>)
    returns (next: Option<nat>, got: seq<byte>)
    requires end.Some? ==> end.value <= src.Length
    ensures next == if Fits(at, end, len) then Some(at.value + len) else None
    ensures got == if next.Some? then Moved(host, mode, src[at.value..at.value + len]) else []
  {
    if at.None? || end.None? {
      return None, [];
    }
    if end.value < at.value || len > end.value - at.value {
      return None, [];
    }
    got := src[at.value..at.value + len];
    if host == LittleHost && mode == Net && IntSize(len) {
      BswapReverses(Little, got);
      got := Store(Little, Bswap(Load(Little, got), len), len);
    } else if host == BigHost && mode == LittleWire && IntSize(len) {
      got := Rev(got);
    }
    next := Some(at.value + len);
  }

  // ----- Chains of puts and gets -----

  datatype Field = Field(mode: Mode, bytes: seq<byte>)

  datatype List<T> = Nil | Cons(head: T, tail: List<T>)

  function Written(buf: seq<byte>, at: nat, s: seq<byte>): (r: seq<byte>)
    requires at + |s| <= |buf|
    ensures |r| == |buf|
  {
    buf[..at] + s + buf[at + |s|..]
  }

  datatype Cursor = Cursor(buf: seq<byte>, at: Option<nat>)

  function Put(host: Host, f: Field, c: Cursor, end: nat): (r: Cursor)
    requires end <= |c.buf|
    ensures |r.buf| == |c.buf|
  {
    if !Fits(c.at, Some(end), |f.bytes|) then c.(at := None)
    else Cursor(Written(c.buf, c.at.value, Moved(host, f.mode, f.bytes)), Some(c.at.value + |f.bytes|))
  }

  function PutAll(host: Host, fields: List<Field>, c: Cursor, end: nat): (r: Cursor)
    requires end <= |c.buf|
    ensures |r.buf| == |c.buf|
  {
    if fields.Nil? then c else PutAll(host, fields.tail, Put(host, fields.head, c, end), end)
  }

  function Total(fields: List<Field>): nat { if fields.Nil? then 0 else |fields.head.bytes| + Total(fields.tail) }

  function Wire(host: Host, fields: List<Field>): (r: seq<byte>)
    ensures |r| == Total(fields)
  {
    if fields.Nil? then [] else Moved(host, fields.head.mode, fields.head.bytes) + Wire(host, fields.tail)
  }

  /** A failed cursor stays failed and writes nothing more. */
  lemma {:induction false} FailureSticks(host: Host, fields: List<Field>, c: Cursor, end: nat)
    requires end <= |c.buf| && c.at.None?
    ensures PutAll(host, fields, c, end) == c
  {
    if fields.Cons? {
      FailureSticks(host, fields.tail, c, end);
    }
  }

  lemma WrittenTwice(buf: seq<byte>, at: nat, s: seq<byte>, t: seq<byte>)
    requires at + |s| + |t| <= |buf|
    ensures Written(Written(buf, at, s), at + |s|, t) == Written(buf, at, s + t)
  {
  }

  lemma {:induction false} ChainFits(host: Host, fields: List<Field>, c: Cursor, end: nat)
    requires end <= |c.buf| && c.at.Some? && c.at.value <= end
    ensures PutAll(host, fields, c, end).at ==
            if Total(fields) <= end - c.at.value then Some(c.at.value + Total(fields)) else None
  {
    if fields.Cons? {
      var next := Put(host, fields.head, c, end);
      if next.at.None? {
        FailureSticks(host, fields.tail, next, end);
      } else {
        ChainFits(host, fields.tail, next, end);
      }
    }
  }

  lemma {:induction false} ChainWrites(host: Host, fields: List<Field>, buf: seq<byte>, at: nat, end: nat)
    requires at + Total(fields) <= end <= |buf|
    ensures PutAll(host, fields, Cursor(buf, Some(at)), end).buf == Written(buf, at, Wire(host, fields))
  {
    if fields.Nil? {
      assert Written(buf, at, []) == buf;
    } else {
      var s, t := Moved(host, fields.head.mode, fields.head.bytes), Wire(host, fields.tail);
      ChainWrites(host, fields.tail, Written(buf, at, s), at + |s|, end);
      WrittenTwice(buf, at, s, t);
    }
  }

  /**
   A chain of puts succeeds exactly when the fields fit together. It then leaves their wire form, in order
   and with nothing around it changed.
   */
  lemma ChainCondition(host: Host, fields: List<Field>, c: Cursor, end: nat)
    requires end <= |c.buf| && c.at.Some? && c.at.value <= end
    ensures var r := PutAll(host, fields, c, end);
            && (r.at.Some? <==> Total(fields) <= end - c.at.value)
            && (r.at.Some? ==>
                  r == Cursor(Written(c.buf, c.at.value, Wire(host, fields)), Some(c.at.value + Total(fields))))
  {
    ChainFits(host, fields, c, end);
    if Total(fields) <= end - c.at.value {
      ChainWrites(host, fields, c.buf, c.at.value, end);
    }
  }

  /** Whether or not the chain succeeds, bytes before the cursor and from the end on stay as they were. */
  lemma {:induction false} NothingOutside(host: Host, fields: List<Field>, c: Cursor, end: nat, i: nat)
    requires end <= |c.buf| && i < |c.buf|
    requires i >= end || (c.at.Some? && i < c.at.value)
    ensures PutAll(host, fields, c, end).buf[i] == c.buf[i]
  {
    if fields.Cons? {
      var next := Put(host, fields.head, c, end);
      if next.at.None? {
        FailureSticks(host, fields.tail, next, end);
      } else {
        NothingOutside(host, fields.tail, next, end, i);
      }
    }
  }

  /** A field to read: only the length of the bytes matters. */
  datatype Want = Want(mode: Mode, len: nat)

  function Wants(fields: List<Field>): List<Want> {
    if fields.Nil? then Nil else Cons(Want(fields.head.mode, |fields.head.bytes|), Wants(fields.tail))
  }

  /** Reading fields one after the other, or `None` as soon as one does not fit. */
  function GetAll(host: Host, wants: List<Want>, buf: seq<byte>, at: nat, end: nat): Option<List<Field>>
    requires end <= |buf|
  {
    if wants.Nil? then Some(Nil)
    else if !Fits(Some(at), Some(end), wants.head.len) then None
    else
      var f := Field(wants.head.mode, Moved(host, wants.head.mode, buf[at..at + wants.head.len]));
      var rest := GetAll(host, wants.tail, buf, at + wants.head.len, end);
      if rest.None? then None else Some(Cons(f, rest.value))
  }

  /** A chain of gets succeeds exactly when the lengths fit together. */
  lemma {:induction false} GetCondition(host: Host, fields: List<Field>, buf: seq<byte>, at: nat, end: nat)
    requires at <= end <= |buf|
    ensures GetAll(host, Wants(fields), buf, at, end).Some? <==> Total(fields) <= end - at
  {
    if fields.Cons? && at + |fields.head.bytes| <= end {
      GetCondition(host, fields.tail, buf, at + |fields.head.bytes|, end);
    }
  }

  /** What a get on `host` makes of the wire form that `from` produced. */
  function Received(from: Host, host: Host, f: Field): Field {
    f.(bytes := Moved(host, f.mode, Moved(from, f.mode, f.bytes)))
  }

  function AllReceived(from: Host, host: Host, fields: List<Field>): List<Field> {
    if fields.Nil? then Nil else Cons(Received(from, host, fields.head), AllReceived(from, host, fields.tail))
  }

  /** `buf` holds `s` from `at`. */
  predicate Holds(buf: seq<byte>, at: nat, s: seq<byte>) { at + |s| <= |buf| && buf[at..at + |s|] == s }

  lemma HoldsParts(buf: seq<byte>, at: nat, s: seq<byte>, t: seq<byte>)
    requires Holds(buf, at, s + t)
    ensures Holds(buf, at, s) && Holds(buf, at + |s|, t)
  {
    assert buf[at..at + |s|] == (s + t)[..|s|];
    assert buf[at + |s|..at + |s| + |t|] == (s + t)[|s|..];
  }

  /** A chain of gets, one field at a time. */
  lemma GetOne(host: Host, f: Field, rest: List<Field>, got: List<Field>, buf: seq<byte>, at: nat, end: nat)
    requires end <= |buf| && at + |f.bytes| <= end
    requires GetAll(host, Wants(rest), buf, at + |f.bytes|, end) == Some(got)
    ensures GetAll(host, Wants(Cons(f, rest)), buf, at, end) ==
            Some(Cons(Field(f.mode, Moved(host, f.mode, buf[at..at + |f.bytes|])), got))
  {
    assert Wants(Cons(f, rest)) == Cons(Want(f.mode, |f.bytes|), Wants(rest));
  }

  lemma {:induction false} GetReads(from: Host, host: Host, fields: List<Field>, buf: seq<byte>, at: nat, end: nat)
    requires at + Total(fields) <= end <= |buf| && Holds(buf, at, Wire(from, fields))
    ensures GetAll(host, Wants(fields), buf, at, end) == Some(AllReceived(from, host, fields))
  {
    if fields.Cons? {
      HoldsParts(buf, at, Moved(from, fields.head.mode, fields.head.bytes), Wire(from, fields.tail));
      GetReads(from, host, fields.tail, buf, at + |fields.head.bytes|, end);
      GetOne(host, fields.head, fields.tail, AllReceived(from, host, fields.tail), buf, at, end);
    }
  }

  /** A get of what a put left, on any two hosts. */
  lemma PutThenGet(from: Host, host: Host, fields: List<Field>, c: Cursor, end: nat)
    requires end <= |c.buf| && c.at.Some? && c.at.value <= end
    ensures var got := GetAll(host, Wants(fields), PutAll(from, fields, c, end).buf, c.at.value, end);
            got == if Total(fields) <= end - c.at.value then Some(AllReceived(from, host, fields)) else None
  {
    ChainCondition(from, fields, c, end);
    var buf := PutAll(from, fields, c, end).buf;
    GetCondition(host, fields, buf, c.at.value, end);
    if Total(fields) <= end - c.at.value {
      assert Holds(buf, c.at.value, Wire(from, fields));
      GetReads(from, host, fields, buf, c.at.value, end);
    }
  }

  lemma {:induction false} SameHostReceives(host: Host, fields: List<Field>)
    ensures AllReceived(host, host, fields) == fields
  {
    if fields.Cons? {
      RevRev(fields.head.bytes);
      SameHostReceives(host, fields.tail);
    }
  }

  /** Gets with the same modes and lengths return what a chain of puts was given, exactly when it fitted. */
  lemma GetReturnsPut(host: Host, fields: List<Field>, c: Cursor, end: nat)
    requires end <= |c.buf| && c.at.Some? && c.at.value <= end
    ensures var got := GetAll(host, Wants(fields), PutAll(host, fields, c, end).buf, c.at.value, end);
            got == if Total(fields) <= end - c.at.value then Some(fields) else None
  {
    PutThenGet(host, host, fields, c, end);
    SameHostReceives(host, fields);
  }

  // ----- Two hosts -----

  /** An integer as `host` keeps it in memory. */
  function IntField(host: Host, mode: Mode, v: nat, n: nat): Field { Field(mode, Store(host.Order(), v, n)) }

  function WireOrder(mode: Mode): Order { if mode == Net then Big else Little }

  lemma StoreOrders(v: nat, n: nat)
    ensures Rev(Store(Little, v, n)) == Store(Big, v, n) && Rev(Store(Big, v, n)) == Store(Little, v, n)
  {
    RevRev(BigBytes(v, n));
  }

  /** Moving a number, of which `little` and `big` are the two byte orders. */
  lemma MovedOrders(host: Host, little: seq<byte>, big: seq<byte>)
    requires IntSize(|little|) && |big| == |little| && Rev(little) == big && Rev(big) == little
    ensures var own := if host == LittleHost then little else big;
            && Moved(host, Net, own) == big && Moved(host, Net, big) == own
            && Moved(host, LittleWire, own) == little && Moved(host, LittleWire, little) == own
  {}

  /** Both hosts put the same bytes on the wire for an integer: those of the wire's byte order. */
  lemma IntWire(host: Host, mode: Mode, v: nat, n: nat)
    requires IntSize(n) && mode != NoNet
    ensures Moved(host, mode, Store(host.Order(), v, n)) == Store(WireOrder(mode), v, n)
    ensures Moved(host, mode, Store(WireOrder(mode), v, n)) == Store(host.Order(), v, n)
  {
    StoreOrders(v, n);
    MovedOrders(host, Store(Little, v, n), Store(Big, v, n));
  }

  /** An integer put on one host is the same number when got on the other. */
  lemma IntCrossesHosts(from: Host, host: Host, mode: Mode, v: nat, n: nat)
    requires IntSize(n) && v < Pow256(n) && mode != NoNet
    ensures Received(from, host, IntField(from, mode, v, n)) == IntField(host, mode, v, n)
    ensures Load(host.Order(), IntField(host, mode, v, n).bytes) == v
  {
    IntWire(from, mode, v, n);
    IntWire(host, mode, v, n);
    LoadStore(host.Order(), v, n);
  }

  datatype Int = Int(mode: Mode, value: nat, size: nat)

  predicate Sendable(ints: List<Int>) {
    ints.Cons? ==>
      && IntSize(ints.head.size) && ints.head.value < Pow256(ints.head.size) && ints.head.mode != NoNet
      && Sendable(ints.tail)
  }

  function InMemory(host: Host, ints: List<Int>): List<Field> {
    if ints.Nil? then Nil
    else Cons(IntField(host, ints.head.mode, ints.head.value, ints.head.size), InMemory(host, ints.tail))
  }

  /** Any list of integers has one wire form, whichever host produced it, and either host reads it back. */
  lemma {:induction false} IntsCrossHosts(from: Host, host: Host, ints: List<Int>)
    requires Sendable(ints)
    ensures Wire(from, InMemory(from, ints)) == Wire(host, InMemory(host, ints))
    ensures AllReceived(from, host, InMemory(from, ints)) == InMemory(host, ints)
  {
    if ints.Cons? {
      IntWire(from, ints.head.mode, ints.head.value, ints.head.size);
      IntWire(host, ints.head.mode, ints.head.value, ints.head.size);
      IntCrossesHosts(from, host, ints.head.mode, ints.head.value, ints.head.size);
      IntsCrossHosts(from, host, ints.tail);
    }
  }

  /**
   Raw bytes (not an integer in host order) have the same wire form on both hosts exactly when they are
   copied as is, or their number is not an integer size, or they read the same backwards.
   */
  lemma RawWireCondition(mode: Mode, s: seq<byte>)
    ensures Moved(LittleHost, mode, s) == Moved(BigHost, mode, s) <==> mode == NoNet || !IntSize(|s|) || Rev(s) == s
  {
  }
}
