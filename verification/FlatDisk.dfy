// What a client of the request server sees: a flat disk, requests that read and write
// it, and the bytes that each request and its reply take on the stream.

module FlatDisk {
  import opened Bytes

  const REQ_INFO: nat := 1
  const REQ_READ: nat := 2
  const REQ_WRITE: nat := 3
  const REQ_CLOSE: nat := 5
  const ENODEV: nat := 19
  const EBADF: nat := 9
  const SIZE_CAP: nat := 0x7FFF_FFFF            // largest buffer the server makes
  const OFFSET_LIMIT: nat := 0x8000_0000_0000_0000

  type Word64 = n: nat | n < BOUND64

  // How the server serves its image: as a dynamic VHD or as a plain file, shifted by the
  // image offset. The other three fields are what it tells about the device.
  datatype Device = Device(dynamic: bool, base: nat, fileSize: Word64, alignment: Word64, flags: Word64)

  // Flag 1, which the server sets for itself, means read-only.
  predicate ReadOnly(dev: Device) {
    dev.flags % 2 == 1
  }

  datatype Request =
    | Info
    | Read(offset: nat, length: nat)
    | Write(offset: nat, data: seq<Byte>)
    | Unknown(code: nat)

  // The requests that have a frame: 64-bit fields, and a code that is not one of the others.
  predicate OnWire(r: Request) {
    match r
    case Info => true
    case Read(offset, length) => offset < BOUND64 && length < BOUND64
    case Write(offset, data) => offset < BOUND64 && |data| < BOUND64
    case Unknown(code) => code < BOUND64 && code != REQ_INFO && code != REQ_READ && code != REQ_WRITE && code != REQ_CLOSE
  }

  type Wire = r: Request | OnWire(r) witness Info

  // What pread returns: the bytes at a position, up to the end of the file.
  function Segment(f: seq<Byte>, at: nat, n: nat): (d: seq<Byte>)
    ensures |d| <= n
    ensures at + n <= |f| ==> d == f[at..at + n]
    ensures n > 0 && at + n > |f| ==> |d| < n
  {
    if at + n <= |f| then f[at..at + n] else if at <= |f| then f[at..] else []
  }

  // pwrite: the file grows when the write reaches past its end, with zeros in a gap. A
  // write of nothing does nothing.
  function Pwrite(f: seq<Byte>, at: nat, d: seq<Byte>): seq<Byte> {
    if d == [] then f
    else if at + |d| <= |f| then Splice(f, at, d)
    else (if at <= |f| then f[..at] else f + Zeros(at - |f|)) + d
  }

  lemma PwriteInside(f: seq<Byte>, at: nat, d: seq<Byte>)
    requires at + |d| <= |f|
    ensures Pwrite(f, at, d) == Splice(f, at, d)
  {
    if d == [] {
      assert Splice(f, at, d) == f;
    }
  }

  lemma PwriteAtEnd(f: seq<Byte>, at: nat, d: seq<Byte>)
    requires at <= |f| < at + |d|
    ensures Pwrite(f, at, d) == f[..at] + d
  {
  }

  // n bytes of the disk from position at. Past the end of the disk a plain file reads as
  // zero; a dynamic disk answers a range that is not wholly inside it with zeros only.
  function ReadBack(dev: Device, disk: seq<Byte>, at: nat, n: nat): (d: seq<Byte>)
    ensures |d| == n
    ensures at + n <= |disk| ==> d == disk[at..at + n]
  {
    if dev.dynamic && at + n > |disk| then Zeros(n)
    else var d := Segment(disk, at, n); d + Zeros(n - |d|)
  }

  function Granted(length: nat): nat {
    if length <= SIZE_CAP then length else SIZE_CAP
  }

  function Refused(dev: Device, disk: seq<Byte>, at: nat, n: nat): bool {
    dev.dynamic && at + n > |disk|
  }

  // The disk after a request.
  function After1(dev: Device, disk: seq<Byte>, r: Wire): seq<Byte> {
    if !r.Write? || ReadOnly(dev) || Refused(dev, disk, dev.base + r.offset, |r.data|) then disk
    else Pwrite(disk, dev.base + r.offset, r.data)
  }

  // The bytes that a request takes on the stream, and those of its reply.
  function Code(r: Wire): nat {
    match r
    case Info => REQ_INFO
    case Read(_, _) => REQ_READ
    case Write(_, _) => REQ_WRITE
    case Unknown(code) => code
  }

  function Body(r: Wire): seq<Byte> {
    match r
    case Info => []
    case Read(offset, length) => LittleEndian64(offset) + LittleEndian64(length)
    case Write(offset, data) => LittleEndian64(offset) + LittleEndian64(|data|) + data
    case Unknown(_) => []
  }

  function Frame(r: Wire): seq<Byte> {
    LittleEndian64(Code(r)) + Body(r)
  }

  function Reply(dev: Device, disk: seq<Byte>, r: Wire): seq<Byte>
  {
    match r
    case Info => LittleEndian64(dev.fileSize) + LittleEndian64(dev.alignment) + LittleEndian64(dev.flags)
    case Read(offset, length) =>
      var n := Granted(length);
      LittleEndian64(0) + LittleEndian64(n) + ReadBack(dev, disk, dev.base + offset, n)
    case Write(offset, data) =>
      if ReadOnly(dev) then LittleEndian64(EBADF) + LittleEndian64(0)
      else if Refused(dev, disk, dev.base + offset, |data|) then LittleEndian64(0) + LittleEndian64(0)
      else LittleEndian64(0) + LittleEndian64(|data|)
    case Unknown(code) => LittleEndian64(ENODEV)
  }

  // The server's buffer after a request: a longer read makes it grow.
  function Buffer1(buffer: nat, r: Wire): nat {
    if r.Read? && r.length > buffer then Granted(r.length) else buffer
  }

  // Positions that fit the signed file offset, and writes that fit the buffer.
  predicate Served(dev: Device, buffer: nat, r: Wire) {
    && (r.Read? ==> dev.base + r.offset + Granted(r.length) < OFFSET_LIMIT)
    && (r.Write? ==> |r.data| <= buffer && dev.base + r.offset + |r.data| < OFFSET_LIMIT)
  }

  predicate AllServed(dev: Device, buffer: nat, rs: seq<Wire>)
    decreases rs
  {
    rs == [] || (Served(dev, buffer, rs[0]) && AllServed(dev, Buffer1(buffer, rs[0]), rs[1..]))
  }

  // Whole sessions.
  function After(dev: Device, disk: seq<Byte>, rs: seq<Wire>): seq<Byte>
    decreases rs
  {
    if rs == [] then disk else After(dev, After1(dev, disk, rs[0]), rs[1..])
  }

  function Buffer(buffer: nat, rs: seq<Wire>): nat
    decreases rs
  {
    if rs == [] then buffer else Buffer(Buffer1(buffer, rs[0]), rs[1..])
  }

  function Replies(dev: Device, disk: seq<Byte>, rs: seq<Wire>): seq<Byte>
    decreases rs
  {
    if rs == [] then [] else Reply(dev, disk, rs[0]) + Replies(dev, After1(dev, disk, rs[0]), rs[1..])
  }

  function Frames(rs: seq<Wire>): seq<Byte>
  {
    if rs == [] then [] else Frame(rs[0]) + Frames(rs[1..])
  }

  // The fields of a frame: the code, and for a read or a write the offset, the length and,
  // for a write, the data.
  lemma FrameFields(r: Wire)
    ensures var f := Frame(r);
            && |f| >= 8 && Word(f, 0) == Code(r)
            && match r
               case Info => Word(f, 0) == 1 && |f| == 8
               case Read(offset, length) => Word(f, 0) == 2 && |f| == 24 && Word(f, 8) == offset && Word(f, 16) == length
               case Write(offset, data) =>
                 Word(f, 0) == 3 && |f| == 24 + |data| && Word(f, 8) == offset && Word(f, 16) == |data| && f[24..] == data
               case Unknown(code) => Word(f, 0) == code && |f| == 8
  {
    hide LittleEndian64;
    var f := Frame(r);
    assert f[0..8] == LittleEndian64(Code(r));
    match r
    case Read(offset, length) =>
      assert f[8..16] == LittleEndian64(offset) && f[16..24] == LittleEndian64(length);
    case Write(offset, data) =>
      assert f[8..16] == LittleEndian64(offset) && f[16..24] == LittleEndian64(|data|);
    case _ =>
  }

  // How a session ends: the client closes it, the stream ends between requests, inside the
  // header of a read or write or inside the data of a write, or a write comes that does not
  // fit the buffer.
  datatype Ending =
    | Closed(rest: seq<Byte>)
    | Hangup(partial: seq<Byte>)
    | CutHeader(code: nat, partial: seq<Byte>)
    | CutData(offset: nat, length: nat, partial: seq<Byte>)
    | TooLong(offset: nat, length: nat, rest: seq<Byte>)

  predicate Ends(e: Ending, buffer: nat) {
    match e
    case Closed(_) => true
    case Hangup(partial) => |partial| < 8
    case CutHeader(code, partial) => (code == REQ_READ || code == REQ_WRITE) && |partial| < 16
    case CutData(offset, length, partial) => offset < BOUND64 && |partial| < length <= buffer && length < BOUND64
    case TooLong(offset, length, _) => offset < BOUND64 && buffer < length < BOUND64
  }

  function Tail(e: Ending, buffer: nat): seq<Byte>
    requires Ends(e, buffer)
  {
    match e
    case Closed(rest) => LittleEndian64(REQ_CLOSE) + rest
    case Hangup(partial) => partial
    case CutHeader(code, partial) => LittleEndian64(code) + partial
    case CutData(offset, length, partial) => LittleEndian64(REQ_WRITE) + (LittleEndian64(offset) + LittleEndian64(length) + partial)
    case TooLong(offset, length, rest) => LittleEndian64(REQ_WRITE) + (LittleEndian64(offset) + LittleEndian64(length) + rest)
  }

  // A session that stops in the middle of a request, or at one that is too long, fails.
  function ExitCode(e: Ending): int {
    if e.Closed? || e.Hangup? then 0 else 1
  }

  // A session is the session of its first part followed by that of the rest.
  lemma {:induction false} AfterCompose(dev: Device, disk: seq<Byte>, rs: seq<Wire>, ts: seq<Wire>)
    ensures After(dev, disk, rs + ts) == After(dev, After(dev, disk, rs), ts)
    decreases rs
  {
    if rs == [] {
      assert rs + ts == ts;
    } else {
      assert (rs + ts)[1..] == rs[1..] + ts;
      AfterCompose(dev, After1(dev, disk, rs[0]), rs[1..], ts);
    }
  }

  lemma {:induction false} RepliesCompose(dev: Device, disk: seq<Byte>, rs: seq<Wire>, ts: seq<Wire>)
    ensures Replies(dev, disk, rs + ts) == Replies(dev, disk, rs) + Replies(dev, After(dev, disk, rs), ts)
    decreases rs
  {
    hide Reply, After1, OnWire;
    if rs == [] {
      assert rs + ts == ts;
    } else {
      assert (rs + ts)[1..] == rs[1..] + ts && (rs + ts)[0] == rs[0];
      RepliesCompose(dev, After1(dev, disk, rs[0]), rs[1..], ts);
    }
  }

  // Nothing that a client sends changes a read-only device.
  lemma {:induction false} ReadOnlyNeverChanges(dev: Device, disk: seq<Byte>, rs: seq<Wire>)
    requires ReadOnly(dev)
    ensures After(dev, disk, rs) == disk
    decreases rs
  {
    if rs != [] {
      ReadOnlyNeverChanges(dev, disk, rs[1..]);
    }
  }

  // A dynamic disk keeps its size, whatever is sent to it.
  lemma {:induction false} DynamicKeepsSize(dev: Device, disk: seq<Byte>, rs: seq<Wire>)
    requires dev.dynamic
    ensures |After(dev, disk, rs)| == |disk|
    decreases rs
  {
    if rs != [] {
      DynamicKeepsSize(dev, After1(dev, disk, rs[0]), rs[1..]);
    }
  }

  // Requests that leave the bytes from at up to at + n alone.
  predicate Avoids(dev: Device, rs: seq<Wire>, at: nat, n: nat) {
    forall r :: r in rs && r.Write? ==> dev.base + r.offset + |r.data| <= at || at + n <= dev.base + r.offset
  }

  lemma {:induction false} UntouchedBytes(dev: Device, disk: seq<Byte>, rs: seq<Wire>, at: nat, n: nat)
    requires at + n <= |disk| && Avoids(dev, rs, at, n)
    ensures at + n <= |After(dev, disk, rs)| && After(dev, disk, rs)[at..at + n] == disk[at..at + n]
    decreases rs
  {
    if rs != [] {
      var disk1 := After1(dev, disk, rs[0]);
      UntouchedByOne(dev, disk, rs[0], at, n);
      UntouchedBytes(dev, disk1, rs[1..], at, n);
    }
  }

  lemma UntouchedByOne(dev: Device, disk: seq<Byte>, r: Wire, at: nat, n: nat)
    requires at + n <= |disk|
    requires r.Write? ==> dev.base + r.offset + |r.data| <= at || at + n <= dev.base + r.offset
    ensures at + n <= |After1(dev, disk, r)| && After1(dev, disk, r)[at..at + n] == disk[at..at + n]
  {
    var disk1 := After1(dev, disk, r);
    assert |disk1| >= |disk| && forall i :: at <= i < at + n ==> disk1[i] == disk[i];
  }

  lemma LatestWrite(dev: Device, disk: seq<Byte>, w: Wire, between: seq<Wire>, at: nat, n: nat)
    requires w.Write? && n == |w.data| && at == dev.base + w.offset && Holds(dev, disk, w)
    requires Avoids(dev, between, at, n)
    ensures at + n <= |After(dev, After1(dev, disk, w), between)|
    ensures After(dev, After1(dev, disk, w), between)[at..at + n] == w.data
  {
    UntouchedBytes(dev, After1(dev, disk, w), between, at, n);
  }

  // The disk after a write has all of its data in place.
  predicate Holds(dev: Device, disk: seq<Byte>, w: Wire)
    requires w.Write?
  {
    var at, disk1 := dev.base + w.offset, After1(dev, disk, w);
    at + |w.data| <= |disk1| && disk1[at..at + |w.data|] == w.data
  }

  // A write past the end of a plain file makes it longer, with zeros before the data; it
  // changes nothing else, and neither does a write in the middle.
  lemma PwriteBytes(f: seq<Byte>, at: nat, d: seq<Byte>)
    requires d != []
    ensures var f1 := Pwrite(f, at, d);
            && |f1| == (if at + |d| > |f| then at + |d| else |f|) && f1[at..at + |d|] == d
            && forall i :: 0 <= i < |f1| && !(at <= i < at + |d|) ==> f1[i] == if i < |f| then f[i] else 0
  {
  }

  // The two words of the reply to a write tell what became of it. On a read-only device
  // they are an error and no length. A dynamic disk takes nothing of a write past its end,
  // and says so with no error and no length. Any other write is stored, and its whole
  // length acknowledged; the disk is as before outside its range, or zero where it grew.
  lemma WriteReply(dev: Device, disk: seq<Byte>, w: Wire)
    requires w.Write?
    ensures var reply, at := Reply(dev, disk, w), dev.base + w.offset;
            && |reply| == 16
            && (dev.flags % 2 == 1 ==> Word(reply, 0) == EBADF && Word(reply, 8) == 0)
            && (dev.flags % 2 == 0 ==>
                  Word(reply, 0) == 0 && Word(reply, 8) == if dev.dynamic && at + |w.data| > |disk| then 0 else |w.data|)
    ensures Word(Reply(dev, disk, w), 0) == 0 && Word(Reply(dev, disk, w), 8) == |w.data| > 0 ==>
              var disk1, at := After1(dev, disk, w), dev.base + w.offset;
              && Holds(dev, disk, w) && |disk1| >= |disk|
              && forall i :: 0 <= i < |disk1| && !(at <= i < at + |w.data|) ==> disk1[i] == if i < |disk| then disk[i] else 0
    ensures Word(Reply(dev, disk, w), 0) != 0 || Word(Reply(dev, disk, w), 8) == 0 ==> After1(dev, disk, w) == disk
  {
    hide LittleEndian64, Word, Pwrite;
    var reply := Reply(dev, disk, w);
    TwoWordsOf(reply, if ReadOnly(dev) then EBADF else 0,
               if ReadOnly(dev) || Refused(dev, disk, dev.base + w.offset, |w.data|) then 0 else |w.data|);
    if w.data != [] {
      PwriteBytes(disk, dev.base + w.offset, w.data);
    } else {
      PwriteNothing(disk, dev.base + w.offset);
    }
  }

  lemma PwriteNothing(f: seq<Byte>, at: nat)
    ensures Pwrite(f, at, []) == f
  {
  }

  lemma TwoWordsOf(s: seq<Byte>, a: nat, b: nat)
    requires a < BOUND64 && b < BOUND64 && s == LittleEndian64(a) + LittleEndian64(b)
    ensures |s| == 16 && Word(s, 0) == a && Word(s, 8) == b
  {
    assert s[0..8] == LittleEndian64(a) && s[8..16] == LittleEndian64(b);
  }

  // The other replies: an information request brings the size, the alignment and the
  // flags, an unknown one an error, and neither changes anything.
  lemma OtherReplies(dev: Device, disk: seq<Byte>, r: Wire)
    requires r.Info? || r.Unknown?
    ensures After1(dev, disk, r) == disk
    ensures var reply := Reply(dev, disk, r);
            if r.Info? then
              && |reply| == 24 && Word(reply, 0) == dev.fileSize && Word(reply, 8) == dev.alignment && Word(reply, 16) == dev.flags
            else |reply| == 8 && Word(reply, 0) == ENODEV
  {
    hide LittleEndian64;
    var reply := Reply(dev, disk, r);
    if r.Info? {
      assert reply[0..8] == LittleEndian64(dev.fileSize) && reply[8..16] == LittleEndian64(dev.alignment);
      assert reply[16..24] == LittleEndian64(dev.flags);
    } else {
      assert reply[0..8] == LittleEndian64(ENODEV);
    }
  }

  // The reply to a read: no error, the length that fits the largest buffer, and as many
  // bytes. They are those of the disk; past its end a plain file reads as zero, and a
  // dynamic disk answers a range that is not wholly inside with zeros only.
  lemma ReadReply(dev: Device, disk: seq<Byte>, r: Wire)
    requires r.Read?
    ensures var reply, n, at := Reply(dev, disk, r), if r.length <= SIZE_CAP then r.length else SIZE_CAP, dev.base + r.offset;
            && |reply| == 16 + n && Word(reply, 0) == 0 && Word(reply, 8) == n
            && forall i :: 0 <= i < n ==>
                 reply[16..][i] == if at + i < |disk| && (!dev.dynamic || at + n <= |disk|) then disk[at + i] else 0
    ensures After1(dev, disk, r) == disk
  {
    hide LittleEndian64;
    var n := Granted(r.length);
    var reply, d := Reply(dev, disk, r), ReadBack(dev, disk, dev.base + r.offset, n);
    assert reply[0..8] == LittleEndian64(0) && reply[8..16] == LittleEndian64(n) && reply[16..] == d;
  }

  // What a session answers to one of its requests stands behind the replies to those
  // before it.
  lemma ReplyInSession(dev: Device, disk: seq<Byte>, before: seq<Wire>, r: Wire, rest: seq<Wire>)
    ensures var all, p, reply := Replies(dev, disk, before + ([r] + rest)), |Replies(dev, disk, before)|,
                                 Reply(dev, After(dev, disk, before), r);
            p + |reply| <= |all| && all[p..p + |reply|] == reply
  {
    hide Reply, After1;
    var disk0 := After(dev, disk, before);
    RepliesCompose(dev, disk, before, [r] + rest);
    assert ([r] + rest)[1..] == rest;
    assert Replies(dev, disk0, [r] + rest) == Reply(dev, disk0, r) + Replies(dev, After1(dev, disk0, r), rest);
  }

  lemma WordsIn(s: seq<Byte>, p: nat, reply: seq<Byte>)
    requires |reply| >= 16 && p + |reply| <= |s| && s[p..p + |reply|] == reply
    ensures Word(s, p) == Word(reply, 0) && Word(s, p + 8) == Word(reply, 8)
  {
    SubSlice(s, p, p + |reply|, 0, 8);
    SubSlice(s, p, p + |reply|, 8, 16);
  }

  // What a client can rely on in any session: when the reply to a write has no error and a
  // length, a later read of that range brings the data of the write, however much happens
  // elsewhere before and in between.
  lemma ReadsSeeLatestWrite(dev: Device, disk: seq<Byte>, before: seq<Wire>, w: Wire, between: seq<Wire>, r: Wire)
    requires w.Write? && 0 < |w.data| <= SIZE_CAP && r == Read(w.offset, |w.data|)
    requires Avoids(dev, between, dev.base + w.offset, |w.data|)
    ensures var all, p := Replies(dev, disk, before + ([w] + (between + [r]))), |Replies(dev, disk, before)|;
            && p + 16 <= |all|
            && (Word(all, p) == 0 && Word(all, p + 8) != 0 ==>
                  && Word(all, p + 8) == |w.data|
                  && |all| >= 16 + |w.data|
                  && all[|all| - 16 - |w.data|..] == LittleEndian64(0) + LittleEndian64(|w.data|) + w.data)
  {
    hide Reply, After1, Avoids, Word, Holds, Replies, After, LittleEndian64;
    var disk0 := After(dev, disk, before);
    var all, p := Replies(dev, disk, before + ([w] + (between + [r]))), |Replies(dev, disk, before)|;
    ReplyInSession(dev, disk, before, w, between + [r]);
    WriteReply(dev, disk0, w);
    WordsIn(all, p, Reply(dev, disk0, w));
    if Word(all, p) == 0 && Word(all, p + 8) != 0 {
      LatestWrite(dev, disk0, w, between, dev.base + w.offset, |w.data|);
      var so := before + ([w] + between);
      assert before + ([w] + (between + [r])) == so + [r];
      AfterCompose(dev, disk, before, [w] + between);
      AfterFirst(dev, disk0, w, between);
      RepliesCompose(dev, disk, so, [r]);
      LastRead(dev, After(dev, disk, so), r, w.data);
    }
  }

  lemma AfterFirst(dev: Device, disk: seq<Byte>, r: Wire, rest: seq<Wire>)
    ensures After(dev, disk, [r] + rest) == After(dev, After1(dev, disk, r), rest)
  {
    assert ([r] + rest)[1..] == rest;
  }

  lemma LastRead(dev: Device, disk: seq<Byte>, r: Wire, d: seq<Byte>)
    requires r.Read? && r.length == |d| <= SIZE_CAP && dev.base + r.offset + |d| <= |disk|
    requires disk[dev.base + r.offset..dev.base + r.offset + |d|] == d
    ensures Replies(dev, disk, [r]) == LittleEndian64(0) + LittleEndian64(|d|) + d
  {
    OneReply(dev, disk, r);
    hide LittleEndian64, Replies, After1, Segment;
    assert Reply(dev, disk, r) == LittleEndian64(0) + LittleEndian64(|d|) + d;
  }

  lemma OneReply(dev: Device, disk: seq<Byte>, r: Wire)
    ensures Replies(dev, disk, [r]) == Reply(dev, disk, r)
  {
    hide Reply, After1, OnWire;
    assert [r][1..] == [];
  }

  // On a read-only device every write of a session is answered with the error.
  lemma ReadOnlySession(dev: Device, disk: seq<Byte>, before: seq<Wire>, w: Wire, rest: seq<Wire>)
    requires dev.flags % 2 == 1 && w.Write?
    ensures var all, p := Replies(dev, disk, before + ([w] + rest)), |Replies(dev, disk, before)|;
            p + 16 <= |all| && Word(all, p) == EBADF && Word(all, p + 8) == 0
  {
    hide Reply, After1, Word, Holds;
    ReplyInSession(dev, disk, before, w, rest);
    WriteReply(dev, After(dev, disk, before), w);
    WordsIn(Replies(dev, disk, before + ([w] + rest)), |Replies(dev, disk, before)|, Reply(dev, After(dev, disk, before), w));
  }
}
