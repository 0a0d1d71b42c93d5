// The request server: one request after the other from the stream, answered from the
// image, until the client closes the session or the stream ends.

module DevioServer {
  import opened Bytes
  import opened FlatDisk
  import VhdImage
  import VhdLayout
  import VhdWrites

  class DevioServer {
    const dev: Device
    const image: VhdImage.VhdImage
    var buf: array<Byte>
    var input: seq<Byte>     // bytes from the client that are not read yet
    var output: seq<Byte>    // bytes sent to the client so far

    ghost predicate Valid()
      reads this, image
    {
      && buf.Length <= SIZE_CAP
      && (dev.dynamic ==> image.Valid() && VhdWrites.Room(image.g, image.file))
    }

    // The disk that the client sees.
    ghost function Content(): seq<Byte>
      requires Valid()
      reads this, image
    {
      if dev.dynamic then VhdLayout.Disk(image.g, image.file) else image.file
    }

    constructor (dev: Device, image: VhdImage.VhdImage, bufferSize: nat, input: seq<Byte>)
      requires bufferSize <= SIZE_CAP
      requires dev.dynamic ==> image.Valid() && VhdWrites.Room(image.g, image.file)
      ensures Valid() && this.dev == dev && this.image == image
      ensures fresh(buf) && buf.Length == bufferSize && this.input == input && output == []
    {
      this.dev := dev;
      this.image := image;
      this.buf := new Byte[bufferSize](_ => 0);
      this.input := input;
      this.output := [];
    }

    // Reads exactly n bytes, or fails at the end of the stream.
    method CommRead(n: nat) returns (ok: bool, d: seq<Byte>)
      modifies this`input
      ensures ok <==> n <= |old(input)|
      ensures if ok then d == old(input)[..n] && input == old(input)[n..] else input == []
    {
      if n > |input| {
        input := [];
        return false, [];
      }
      ok, d := true, input[..n];
      input := input[n..];
    }

    method CommWrite(d: seq<Byte>)
      modifies this`output
      ensures output == old(output) + d
    {
      output := output + d;
    }

    // A larger buffer for a long read; the old one's content is not kept.
    method BufRealloc(newSize: nat)
      requires Valid() && newSize > buf.Length
      modifies this`buf
      ensures Valid() && fresh(buf) && buf.Length == Granted(newSize)
    {
      var size := if newSize > SIZE_CAP then SIZE_CAP else newSize;
      buf := new Byte[size](_ => 0);
    }

    method LogicalRead(size: nat, offset: nat) returns (done: int)
      requires Valid() && size <= buf.Length && buf[..size] == Zeros(size)
      modifies buf
      ensures done >= 0 && buf[..size] == ReadBack(dev, Content(), offset, size)
    {
      ghost var had := buf[..];
      if dev.dynamic {
        done := image.VhdRead(buf, 0, size, offset);
        DynamicRead(dev, Content(), had, buf[..], size, offset);
      } else {
        var d := image.PhysicalRead(size, offset);
        CopyInto(buf, 0, d);
        done := |d|;
        PlainRead(dev, Content(), had, buf[..], size, offset);
      }
    }

    method LogicalWrite(d: seq<Byte>, offset: nat) returns (done: int)
      requires Valid()
      modifies image
      ensures Valid()
      ensures var refused := Refused(dev, old(Content()), offset, |d|);
              && done == (if refused then 0 else |d|)
              && Content() == if refused then old(Content()) else Pwrite(old(Content()), offset, d)
    {
      if dev.dynamic {
        ghost var g, f := image.g, image.file;
        if offset + |d| <= g.currentSize && d != [] {
          VhdWrites.RoomForWrite(g, f, offset, |d|);
        }
        done := image.VhdWrite(d, offset);
        if offset + |d| <= g.currentSize && d != [] {
          VhdWrites.RoomAfterWrite(g, f, image.file, offset, d);
        }
      } else {
        done := image.PhysicalWrite(d, offset);
      }
    }

    method SendInfo()
      requires Valid()
      modifies this`output
      ensures output == old(output) + Reply(dev, Content(), Info)
    {
      CommWrite(LittleEndian64(dev.fileSize) + LittleEndian64(dev.alignment) + LittleEndian64(dev.flags));
    }

    method SendFailed(ghost code: nat)
      requires Valid() && OnWire(Unknown(code))
      modifies this`output
      ensures output == old(output) + Reply(dev, Content(), Unknown(code))
    {
      CommWrite(LittleEndian64(ENODEV));
    }

    // The offset and length that follow a request code.
    method ReadHeader() returns (ok: bool, offset: nat, length: nat)
      modifies this`input
      ensures ok <==> |old(input)| >= 16
      ensures ok ==> offset == Word(old(input), 0) && length == Word(old(input), 8) && input == old(input)[16..]
      ensures !ok ==> input == []
    {
      ghost var stream := input;
      var header;
      ok, header := CommRead(16);
      offset, length := 0, 0;
      if ok {
        HeaderWords(stream, header);
        offset, length := Word(header, 0), Word(header, 8);
      }
    }

    // A buffer that is large enough for a read, as far as the largest one, and cleared.
    method PrepareBuffer(length: nat) returns (size: nat)
      requires Valid()
      modifies this`buf, buf
      ensures Valid() && (buf == old(buf) || fresh(buf))
      ensures buf.Length == (if length > old(buf.Length) then Granted(length) else old(buf.Length))
      ensures size == Granted(length) <= buf.Length && buf[..size] == Zeros(size)
    {
      hide VhdLayout.WellFormed, VhdLayout.Disk, VhdWrites.Room, Splice, Zeros;
      if length > buf.Length {
        BufRealloc(length);
      }
      size := if length < buf.Length then length else buf.Length;
      SpliceInside(buf[..], 0, Zeros(size));
      CopyInto(buf, 0, Zeros(size));
      assert buf[..size] == buf[..][0..size];
    }

    method AnswerRead(offset: nat, length: nat)
      requires Valid() && OnWire(Read(offset, length))
      requires dev.base + offset + Granted(length) < OFFSET_LIMIT
      modifies this`buf, this`output, buf
      ensures Valid() && (buf == old(buf) || fresh(buf))
      ensures buf.Length == Buffer1(old(buf.Length), Read(offset, length))
      ensures output == old(output) + Reply(dev, old(Content()), Read(offset, length))
    {
      hide ReadBack, LittleEndian64, VhdLayout.WellFormed, VhdLayout.Disk, VhdWrites.Room, Zeros, Splice;
      var size := PrepareBuffer(length);
      var done := LogicalRead(size, dev.base + offset);
      CommWrite(LittleEndian64(0) + LittleEndian64(size));
      CommWrite(buf[..size]);
    }

    // Serves the read request whose offset and length come next on the stream.
    method ReadData() returns (ok: bool)
      requires Valid()
      requires |input| >= 16 ==> dev.base + Word(input, 0) + Granted(Word(input, 8)) < OFFSET_LIMIT
      modifies this, buf
      ensures Valid() && (buf == old(buf) || fresh(buf))
      ensures ok <==> |old(input)| >= 16
      ensures !ok ==> output == old(output) && input == []
      ensures ok ==>
                var r := Read(Word(old(input), 0), Word(old(input), 8));
                && input == old(input)[16..] && buf.Length == Buffer1(old(buf.Length), r)
                && output == old(output) + Reply(dev, old(Content()), r)
    {
      hide Word, Reply, VhdLayout.WellFormed, VhdLayout.Disk, VhdWrites.Room, Buffer1;
      var offset, length;
      ok, offset, length := ReadHeader();
      if ok {
        AnswerRead(offset, length);
      }
    }

    method AnswerWrite(length: nat, offset: nat)
      requires Valid() && length <= buf.Length && OnWire(Write(offset, buf[..length]))
      requires dev.base + offset + length < OFFSET_LIMIT
      modifies this`output, image
      ensures Valid()
      ensures output == old(output) + Reply(dev, old(Content()), Write(offset, old(buf[..length])))
      ensures Content() == After1(dev, old(Content()), Write(offset, old(buf[..length])))
    {
      hide Pwrite, LittleEndian64, VhdLayout.WellFormed, VhdLayout.Disk;
      if ReadOnly(dev) {
        CommWrite(LittleEndian64(EBADF) + LittleEndian64(0));
      } else {
        var done := LogicalWrite(buf[..length], dev.base + offset);
        CommWrite(LittleEndian64(0) + LittleEndian64(done));
      }
    }

    // Serves the write request whose offset, length and data come next on the stream.
    // A write that does not fit the buffer ends the session.
    method WriteData() returns (ok: bool)
      requires Valid()
      requires |input| >= 16 && Word(input, 8) <= buf.Length && 16 + Word(input, 8) <= |input| ==>
                 dev.base + Word(input, 0) + Word(input, 8) < OFFSET_LIMIT
      modifies this`input, this`output, buf, image
      ensures Valid()
      ensures ok <==> |old(input)| >= 16 && Word(old(input), 8) <= old(buf.Length) && 16 + Word(old(input), 8) <= |old(input)|
      ensures !ok ==> output == old(output) && Content() == old(Content())
      ensures ok ==>
                var end := 16 + Word(old(input), 8);
                var w := Write(Word(old(input), 0), old(input)[16..end]);
                && input == old(input)[end..]
                && output == old(output) + Reply(dev, old(Content()), w)
                && Content() == After1(dev, old(Content()), w)
    {
      hide Word, Reply, After1, VhdLayout.WellFormed, VhdLayout.Disk, VhdWrites.Room;
      ghost var stream := input;
      var offset, length;
      ok, offset, length := ReadHeader();
      if !ok {
        return;
      }
      if length > buf.Length {
        return false;
      }
      var data;
      ok, data := CommRead(length);
      if !ok {
        return;
      }
      assert data == stream[16..16 + length];
      CopyInto(buf, 0, data);
      assert buf[..length] == data;
      AnswerWrite(length, offset);
    }

    // One turn of the server's loop, with the requests todo and then the ending still to
    // come on the stream.
    method ServeOne(ghost todo: seq<Wire>, ghost ending: Ending) returns (more: bool, code: int)
      requires Valid() && AllServed(dev, buf.Length, todo) && Ends(ending, Buffer(buf.Length, todo))
      requires input == Frames(todo) + Tail(ending, Buffer(buf.Length, todo))
      modifies this, buf, image
      ensures Valid() && (buf == old(buf) || fresh(buf))
      ensures more <==> todo != []
      ensures more ==>
                && buf.Length == Buffer1(old(buf.Length), todo[0])
                && input == Frames(todo[1..]) + Tail(ending, Buffer(buf.Length, todo[1..]))
                && output == old(output) + Reply(dev, old(Content()), todo[0])
                && Content() == After1(dev, old(Content()), todo[0])
      ensures !more ==>
                && code == ExitCode(ending) && output == old(output) && Content() == old(Content())
                && (ending.Closed? ==> input == ending.rest)
    {
      hide Word, Reply, Pwrite, VhdLayout.WellFormed, VhdLayout.Disk, VhdWrites.Room, LittleEndian64, Frames, Tail, Body;
      ghost var stream, tail := input, Tail(ending, Buffer(buf.Length, todo));
      Upcoming(todo, tail, stream);
      Start(ending, Buffer(buf.Length, todo));
      var ok, word := CommRead(8);
      if !ok {
        return false, 0;
      }
      SameWord(stream, word);
      var req := Word(word, 0);
      if req == REQ_CLOSE {
        return false, 0;
      }
      if req == REQ_INFO {
        SendInfo();
      } else if req == REQ_READ {
        ok := ReadData();
        if !ok {
          return false, 1;
        }
      } else if req == REQ_WRITE {
        ok := WriteData();
        if !ok {
          return false, 1;
        }
      } else {
        SendFailed(req);
      }
      more, code := true, 0;
    }

    // The loop of do_comm, for any list of requests that the server can serve: each takes
    // its frame from the stream and puts its reply there, and in the end the disk is the
    // flat disk after all of them.
    method DoComm(ghost rs: seq<Wire>, ghost ending: Ending) returns (code: int)
      requires Valid() && AllServed(dev, buf.Length, rs) && Ends(ending, Buffer(buf.Length, rs))
      requires input == Frames(rs) + Tail(ending, Buffer(buf.Length, rs))
      modifies this, buf, image
      ensures Valid() && code == if ending.Closed? || ending.Hangup? then 0 else 1
      ensures output == old(output) + Replies(dev, old(Content()), rs)
      ensures Content() == After(dev, old(Content()), rs)
      ensures ending.Closed? ==> input == ending.rest
    {
      hide Reply, After1, Buffer1, Frame, Tail, VhdLayout.WellFormed, VhdLayout.Disk, VhdWrites.Room;
      ghost var todo, sent, disk := rs, output, Content();
      code := 0;
      var more := true;
      while more
        invariant Valid() && (buf == old(buf) || fresh(buf))
        invariant more ==> AllServed(dev, buf.Length, todo) && Ends(ending, Buffer(buf.Length, todo))
        invariant more ==> input == Frames(todo) + Tail(ending, Buffer(buf.Length, todo))
        invariant output + Replies(dev, Content(), todo) == sent + Replies(dev, disk, rs)
        invariant After(dev, Content(), todo) == After(dev, disk, rs)
        invariant !more ==> todo == [] && code == ExitCode(ending) && (ending.Closed? ==> input == ending.rest)
        decreases |todo|, more
      {
        ghost var before, had := output, Content();
        more, code := ServeOne(todo, ending);
        if more {
          NextReply(dev, had, todo, before);
          todo := todo[1..];
        }
      }
    }
  }

  lemma NextReply(dev: Device, disk: seq<Byte>, todo: seq<Wire>, sent: seq<Byte>)
    requires todo != []
    ensures sent + Replies(dev, disk, todo)
         == sent + Reply(dev, disk, todo[0]) + Replies(dev, After1(dev, disk, todo[0]), todo[1..])
  {
    hide Reply, After1;
  }

  lemma SameWord(stream: seq<Byte>, word: seq<Byte>)
    requires |stream| >= 8 && word == stream[..8]
    ensures Word(word, 0) == Word(stream, 0)
  {
    assert word[0..8] == stream[0..8];
  }

  // What stands at the head of the stream.
  lemma Upcoming(todo: seq<Wire>, tail: seq<Byte>, stream: seq<Byte>)
    requires stream == Frames(todo) + tail
    ensures todo == [] ==> stream == tail
    ensures todo != [] ==>
              && |stream| >= 8 && Word(stream, 0) == Code(todo[0])
              && BodyAhead(todo[0], stream[8..], Frames(todo[1..]) + tail)
  {
    hide LittleEndian64, Word, Body, BodyAhead, Code;
    if todo != [] {
      var r := todo[0];
      var rest := Frames(todo[1..]) + tail;
      assert stream == Frame(r) + Frames(todo[1..]) + tail;
      assert stream == Frame(r) + rest;
      FrameAhead(r, Body(r), rest, stream);
      UpcomingBody(r, stream[8..], rest);
    }
  }

  lemma FrameAhead(r: Wire, body: seq<Byte>, rest: seq<Byte>, stream: seq<Byte>)
    requires stream == LittleEndian64(Code(r)) + body + rest
    ensures |stream| >= 8 && Word(stream, 0) == Code(r) && stream[8..] == body + rest
  {
    hide LittleEndian64, Word;
    assert stream == LittleEndian64(Code(r)) + (body + rest);
    FirstWord(stream, Code(r), body + rest);
  }

  ghost predicate BodyAhead(r: Wire, s: seq<Byte>, rest: seq<Byte>) {
    match r
    case Read(offset, length) => |s| >= 16 && Word(s, 0) == offset && Word(s, 8) == length && s[16..] == rest
    case Write(offset, d) =>
      && |s| >= 16 + |d| && Word(s, 0) == offset && Word(s, 8) == |d|
      && s[16..16 + |d|] == d && s[16 + |d|..] == rest
    case _ => s == rest
  }

  lemma UpcomingBody(r: Wire, s: seq<Byte>, rest: seq<Byte>)
    requires s == Body(r) + rest
    ensures BodyAhead(r, s, rest)
  {
    hide LittleEndian64, Word;
    match r
    case Read(offset, length) => TwoWords(s, offset, length, rest);
    case Write(offset, d) =>
      assert s == LittleEndian64(offset) + LittleEndian64(|d|) + (d + rest);
      TwoWords(s, offset, |d|, d + rest);
      AfterHeader(s, d, rest);
    case _ =>
  }

  lemma Start(e: Ending, buffer: nat)
    requires Ends(e, buffer)
    ensures var s := Tail(e, buffer);
            match e
            case Closed(rest) => |s| >= 8 && Word(s, 0) == REQ_CLOSE && s[8..] == rest
            case Hangup(_) => |s| < 8
            case CutHeader(code, _) => 8 <= |s| < 24 && Word(s, 0) == code
            case CutData(_, length, _) => 24 <= |s| < 24 + length && Word(s, 0) == REQ_WRITE && Word(s[8..], 8) == length
            case TooLong(_, length, _) => |s| >= 24 && Word(s, 0) == REQ_WRITE && Word(s[8..], 8) == length
  {
    hide LittleEndian64, Word;
    match e
    case Closed(rest) => FirstWord(Tail(e, buffer), REQ_CLOSE, rest);
    case Hangup(_) =>
    case CutHeader(code, partial) => FirstWord(Tail(e, buffer), code, partial);
    case CutData(offset, length, partial) =>
      var body := LittleEndian64(offset) + LittleEndian64(length) + partial;
      FirstWord(Tail(e, buffer), REQ_WRITE, body);
      TwoWords(body, offset, length, partial);
    case TooLong(offset, length, rest) =>
      var body := LittleEndian64(offset) + LittleEndian64(length) + rest;
      FirstWord(Tail(e, buffer), REQ_WRITE, body);
      TwoWords(body, offset, length, rest);
  }

  lemma FirstWord(s: seq<Byte>, n: nat, t: seq<Byte>)
    requires n < BOUND64 && s == LittleEndian64(n) + t
    ensures |s| >= 8 && Word(s, 0) == n && s[8..] == t
  {
    assert s[0..8] == LittleEndian64(n);
  }

  lemma TwoWords(s: seq<Byte>, a: nat, b: nat, t: seq<Byte>)
    requires a < BOUND64 && b < BOUND64 && s == LittleEndian64(a) + LittleEndian64(b) + t
    ensures |s| >= 16 && Word(s, 0) == a && Word(s, 8) == b && s[16..] == t
  {
    assert s[0..8] == LittleEndian64(a) && s[8..16] == LittleEndian64(b);
  }

  lemma AfterHeader(s: seq<Byte>, d: seq<Byte>, t: seq<Byte>)
    requires |s| >= 16 && s[16..] == d + t
    ensures |s| >= 16 + |d| && s[16..16 + |d|] == d && s[16 + |d|..] == t
  {
    var u := s[16..];
    assert s[16..16 + |d|] == u[..|d|] && s[16 + |d|..] == u[|d|..];
  }

  lemma HeaderWords(stream: seq<Byte>, header: seq<Byte>)
    requires |stream| >= 16 && header == stream[..16]
    ensures Word(header, 0) == Word(stream, 0) && Word(header, 8) == Word(stream, 8)
  {
    assert header[0..8] == stream[0..8] && header[8..16] == stream[8..16];
  }

  lemma DynamicRead(dev: Device, disk: seq<Byte>, had: seq<Byte>, b: seq<Byte>, n: nat, at: nat)
    requires dev.dynamic && n <= |had| && had[..n] == Zeros(n)
    requires b == if at + n > |disk| then had else Splice(had, 0, disk[at..at + n])
    ensures b[..n] == ReadBack(dev, disk, at, n)
  {
  }

  lemma PlainRead(dev: Device, disk: seq<Byte>, had: seq<Byte>, b: seq<Byte>, n: nat, at: nat)
    requires !dev.dynamic && n <= |had| && had[..n] == Zeros(n)
    requires var d := Segment(disk, at, n); b == d + had[|d|..]
    ensures b[..n] == ReadBack(dev, disk, at, n)
  {
    var d := Segment(disk, at, n);
    assert had[|d|..n] == Zeros(n - |d|) by {
      forall i | |d| <= i < n ensures had[i] == 0 {
        assert had[i] == had[..n][i];
      }
    }
  }
}
