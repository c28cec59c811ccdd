/** Reassembling Modbus frames from a TCP byte stream. */
module ModbusTcp {
  import opened Words
  import opened Devices
  import opened ModbusPdu

  // --------------------------------------------------- the whole stream

  function Flatten(parts: seq<seq<Byte>>): seq<Byte> {
    if parts == [] then [] else parts[0] + Flatten(parts[1..])
  }

  /** The length field, once it has arrived. */
  function Claimed(s: seq<Byte>): nat
    requires |s| >= 6
  {
    Be16(s, 4)
  }

  predicate Impossible(s: seq<Byte>) { |s| >= 6 && (Claimed(s) == 0 || Claimed(s) > PDU_MAX) }

  predicate Complete(s: seq<Byte>) { |s| >= 6 && !Impossible(s) && |s| >= 6 + Claimed(s) }

  predicate IsFrame(f: seq<Byte>) { |f| >= 6 && !Impossible(f) && |f| == 6 + Claimed(f) }

  datatype Parsed = Parsed(frames: seq<seq<Byte>>, rest: seq<Byte>)

  /** Frames from the front of a stream, as long as there is a complete one. */
  function Parse(s: seq<Byte>): (p: Parsed)
    decreases |s|
  {
    if !Complete(s) then Parsed([], s)
    else
      var n := 6 + Claimed(s);
      var p := Parse(s[n..]);
      Parsed([s[..n]] + p.frames, p.rest)
  }

  /** A division of a stream into frames and a remainder that is not a frame. */
  predicate Division(s: seq<Byte>, p: Parsed) {
    && Flatten(p.frames) + p.rest == s
    && (forall f :: f in p.frames ==> IsFrame(f))
    && !Complete(p.rest)
  }

  lemma ParseStep(s: seq<Byte>)
    ensures if Complete(s) then
              var n := 6 + Claimed(s);
              var p := Parse(s[n..]);
              IsFrame(s[..n]) && Parse(s) == Parsed([s[..n]] + p.frames, p.rest)
            else Parse(s) == Parsed([], s)
  {
  }

  lemma FlattenCons(f: seq<Byte>, frames: seq<seq<Byte>>)
    ensures Flatten([f] + frames) == f + Flatten(frames)
  {
    assert ([f] + frames)[1..] == frames;
  }

  /** A frame in front of a divided stream. */
  lemma DivisionCons(f: seq<Byte>, more: seq<Byte>, p: Parsed)
    requires IsFrame(f) && Division(more, p)
    ensures Division(f + more, Parsed([f] + p.frames, p.rest))
  {
    FlattenCons(f, p.frames);
    hide IsFrame, Flatten, Complete;
    assert f + Flatten(p.frames) + p.rest == f + (Flatten(p.frames) + p.rest);
  }

  /** Parsing conserves the stream: the frames and what is left are the bytes received, in order. */
  lemma {:induction false} ParseDivides(s: seq<Byte>)
    ensures Division(s, Parse(s))
    decreases |s|
  {
    ParseStep(s);
    if Complete(s) {
      var n := 6 + Claimed(s);
      hide Impossible, Claimed, Parse, Complete, IsFrame, Flatten, Division;
      ParseDivides(s[n..]);
      DivisionCons(s[..n], s[n..], Parse(s[n..]));
      assert s[..n] + s[n..] == s;
    } else {
      assert Flatten([]) + s == s;
    }
  }

  lemma FrameFirst(f: seq<Byte>, more: seq<Byte>)
    requires IsFrame(f)
    ensures Complete(f + more) && 6 + Claimed(f + more) == |f|
    ensures (f + more)[..|f|] == f && (f + more)[|f|..] == more
  {
  }

  /** There is only one way to divide a stream, so any parser that conserves it agrees with this one. */
  lemma {:induction false} OnlyOneDivision(s: seq<Byte>, p: Parsed)
    requires Division(s, p)
    ensures p == Parse(s)
    decreases |p.frames|
  {
    hide Complete, IsFrame, Claimed;
    if p.frames == [] {
      assert Flatten(p.frames) + p.rest == p.rest;
      assert !Complete(s);
    } else {
      var f, q := p.frames[0], Parsed(p.frames[1..], p.rest);
      var more := Flatten(q.frames) + q.rest;
      assert s == f + more;
      assert f in p.frames;
      FrameFirst(f, more);
      OnlyOneDivision(more, q);
      assert p.frames == [f] + q.frames;
    }
  }

  /** A stream of frames parses into those frames. */
  lemma FramesParse(frames: seq<seq<Byte>>)
    requires forall f :: f in frames ==> IsFrame(f)
    ensures Parse(Flatten(frames)) == Parsed(frames, [])
  {
    assert Flatten(frames) + [] == Flatten(frames);
    OnlyOneDivision(Flatten(frames), Parsed(frames, []));
  }

  lemma {:induction false} FlattenMore(a: seq<seq<Byte>>, b: seq<seq<Byte>>)
    ensures Flatten(a + b) == Flatten(a) + Flatten(b)
    decreases |a|
  {
    if a == [] {
      assert a + b == b;
    } else {
      assert (a + b)[1..] == a[1..] + b;
      FlattenMore(a[1..], b);
    }
  }

  lemma ImpossibleStays(s: seq<Byte>, more: seq<Byte>)
    requires Impossible(s)
    ensures Impossible(s + more) && !Complete(s + more)
  {
  }

  /** A division of a remainder continues the division that left it. */
  lemma DivisionMore(s: seq<Byte>, p: Parsed, more: seq<Byte>, q: Parsed)
    requires Division(s, p) && Division(p.rest + more, q)
    ensures Division(s + more, Parsed(p.frames + q.frames, q.rest))
  {
    FlattenMore(p.frames, q.frames);
    hide Complete, Flatten, IsFrame;
    var a, b := Flatten(p.frames), Flatten(q.frames);
    assert (a + b) + q.rest == a + (b + q.rest) == a + (p.rest + more) == (a + p.rest) + more;
  }

  /** More bytes only add frames after those already there. */
  lemma ParseMore(s: seq<Byte>, more: seq<Byte>)
    ensures var p := Parse(s);
            if Impossible(p.rest) then Parse(s + more) == Parsed(p.frames, p.rest + more) && Impossible(p.rest + more)
            else Parse(s + more) == Parsed(p.frames + Parse(p.rest + more).frames, Parse(p.rest + more).rest)
  {
    hide Impossible, Complete, Parse, Flatten, IsFrame;
    var p := Parse(s);
    var q := Parse(p.rest + more);
    ParseDivides(s);
    ParseDivides(p.rest + more);
    DivisionMore(s, p, more, q);
    OnlyOneDivision(s + more, Parsed(p.frames + q.frames, q.rest));
    if Impossible(p.rest) {
      ImpossibleStays(p.rest, more);
      ParseStep(p.rest + more);
      assert p.frames + [] == p.frames;
    }
  }

  // ------------------------------------------------------- a connection

  /** done and sent are the frames carried out and the replies written, requests counts the replies offered to the
      TCP stack. The stack refuses reply number refuses, if any; there is none after it. */
  datatype Conn = Conn(img: Image, buf: seq<Byte>, open: bool, done: seq<seq<Byte>>, sent: seq<seq<Byte>>,
                       requests: nat, refuses: Option<nat>)

  /** A refused reply ends the connection, with its frame carried out. */
  function CarryOut(c: Conn, frame: seq<Byte>): Conn {
    var (after, reply) := AduExec(c.img, frame);
    var tried := c.(img := after, done := c.done + [frame]);
    if reply == [] then tried
    else if c.refuses == Some(|c.sent|) then Close(tried.(requests := c.requests + 1))
    else tried.(requests := c.requests + 1, sent := c.sent + [reply])
  }

  function Close(c: Conn): Conn { c.(open := false, buf := []) }

  /** What is left in the buffer of a connection that goes on. */
  function Keep(c: Conn, rest: seq<Byte>): Conn { if c.open then c.(buf := rest) else c }

  /** The receive loop: whole frames from the front of the buffer. */
  function Drain(c: Conn): Conn
    requires !c.open ==> c.buf == []
    decreases |c.buf|
  {
    if Impossible(c.buf) then Close(c)
    else if !Complete(c.buf) then c
    else
      var n := 6 + Claimed(c.buf);
      Drain(Keep(CarryOut(c, c.buf[..n]), c.buf[n..]))
  }

  lemma DrainStep(c: Conn)
    requires c.open && Complete(c.buf)
    ensures var n := 6 + Claimed(c.buf);
            var next := Keep(CarryOut(c, c.buf[..n]), c.buf[n..]);
            Drain(c) == if next.open then Drain(next) else next
  {
    hide AduExec;
  }

  lemma DrainEnds(c: Conn)
    requires c.open && !Complete(c.buf)
    ensures Drain(c) == if Impossible(c.buf) then Close(c) else c
  {
  }

  /** A chunk that does not fit in the buffer ends the connection. */
  function Receive(c: Conn, chunk: seq<Byte>): Conn {
    if !c.open then c
    else if |chunk| > ADU_MAX - |c.buf| then Close(c)
    else Drain(c.(buf := c.buf + chunk))
  }

  /** What the TCP stack hands over: a chunk, or nothing when the client closed or receiving failed. */
  function Arrive(c: Conn, arrival: Option<seq<Byte>>): Conn {
    match arrival
    case None => Close(c)
    case Some(chunk) => Receive(c, chunk)
  }

  /** A client that closes, or an error, ends the connection: what was carried out and answered stays, the rest of the
      buffer is dropped, and nothing that comes later counts. */
  lemma {:induction false} ClosedForGood(c: Conn, chunks: seq<seq<Byte>>)
    ensures ReceiveAll(Arrive(c, None), chunks) == c.(open := false, buf := [])
    decreases |chunks|
  {
    if chunks != [] {
      ClosedForGood(c, chunks[1..]);
    }
  }

  function ReceiveAll(c: Conn, chunks: seq<seq<Byte>>): Conn
    decreases |chunks|
  {
    if chunks == [] then c else ReceiveAll(Receive(c, chunks[0]), chunks[1..])
  }

  /** No chunk overruns the buffer while the connection is open. */
  predicate NoOverrun(c: Conn, chunks: seq<seq<Byte>>)
    decreases |chunks|
  {
    chunks == [] ||
    ((c.open ==> |c.buf| + |chunks[0]| <= ADU_MAX) && NoOverrun(Receive(c, chunks[0]), chunks[1..]))
  }

  function CarryOutAll(c: Conn, frames: seq<seq<Byte>>): Conn
    decreases |frames|
  {
    if frames == [] || !c.open then c else CarryOutAll(CarryOut(c, frames[0]), frames[1..])
  }

  /** The reference: the frames of the whole stream, carried out in order up to a refused reply; then the remainder
      is kept, or the connection ends because its length field is impossible. */
  function Whole(c: Conn, stream: seq<Byte>): Conn {
    var p := Parse(stream);
    var after := CarryOutAll(c, p.frames);
    if after.open && Impossible(p.rest) then Close(after) else Keep(after, p.rest)
  }

  predicate IsPrefix(a: seq<seq<Byte>>, b: seq<seq<Byte>>) { |a| <= |b| && a == b[..|a|] }

  lemma CarryOutOne(c: Conn, frame: seq<Byte>, buf: seq<Byte>)
    requires c.open
    ensures CarryOut(c.(buf := buf), frame) == Keep(CarryOut(c, frame), buf)
    ensures var after := CarryOut(c, frame);
            after.done == c.done + [frame] && after.buf == if after.open then c.buf else []
  {
    hide AduExec;
  }

  lemma {:induction false} BufferIsApart(c: Conn, frames: seq<seq<Byte>>, buf: seq<Byte>)
    requires c.open
    ensures var after := CarryOutAll(c, frames);
            && CarryOutAll(c.(buf := buf), frames) == Keep(after, buf)
            && IsPrefix(after.done, c.done + frames) && (frames != [] ==> |after.done| > |c.done|)
            && (if after.open then after.done == c.done + frames && after.buf == c.buf else after.buf == [])
    decreases |frames|
  {
    hide CarryOut;
    if frames != [] {
      var next := CarryOut(c, frames[0]);
      CarryOutOne(c, frames[0], buf);
      assert next.done + frames[1..] == c.done + frames;
      assert next.done == (c.done + frames)[..|next.done|];
      if next.open {
        BufferIsApart(next, frames[1..], buf);
      }
    }
  }

  /** The loop over the buffer agrees with the whole-stream reference. */
  lemma {:induction false} DrainIsWhole(c: Conn)
    requires c.open
    ensures Drain(c) == Whole(c, c.buf)
    decreases |c.buf|
  {
    hide AduExec, Claimed;
    if Impossible(c.buf) {
    } else if Complete(c.buf) {
      var n := 6 + Claimed(c.buf);
      var next := CarryOut(c, c.buf[..n]);
      var p := Parse(c.buf[n..]);
      assert Parse(c.buf).frames[1..] == p.frames;
      assert CarryOutAll(c, Parse(c.buf).frames) == CarryOutAll(next, p.frames);
      DrainStep(c);
      hide CarryOut, Complete, Impossible;
      if next.open {
        DrainIsWhole(next.(buf := c.buf[n..]));
        BufferIsApart(next, p.frames, c.buf[n..]);
      }
    }
  }

  lemma {:induction false} CarryOutMore(c: Conn, a: seq<seq<Byte>>, b: seq<seq<Byte>>)
    ensures CarryOutAll(c, a + b) == CarryOutAll(CarryOutAll(c, a), b)
    decreases |a|
  {
    hide CarryOut;
    if a == [] {
      assert a + b == b;
    } else {
      assert (a + b)[1..] == a[1..] + b;
      CarryOutMore(CarryOut(c, a[0]), a[1..], b);
    }
  }

  /** A refused reply cuts a run of frames short: the replies before it are written as they would have been, and
      the frames up to its own are carried out. */
  lemma {:induction false} RefusalExact(c: Conn, frames: seq<seq<Byte>>, k: nat)
    requires c.open && c.refuses == Some(|c.sent| + k)
    ensures var after, free := CarryOutAll(c, frames), CarryOutAll(c.(refuses := None), frames);
            && free.open && (after.open <==> |free.sent| <= |c.sent| + k)
            && (if after.open then after == free.(refuses := c.refuses)
                else |free.sent| > |c.sent| + k && after.sent == free.sent[..|c.sent| + k]
                     && IsPrefix(after.done, free.done) && after.requests == c.requests + k + 1)
            && free.requests - c.requests == |free.sent| - |c.sent| >= 0
            && c.sent == free.sent[..|c.sent|] && IsPrefix(c.done, free.done)
    decreases |frames|
  {
    hide CarryOut;
    if frames != [] {
      var next, free := CarryOut(c, frames[0]), CarryOut(c.(refuses := None), frames[0]);
      RefusalStep(c, frames[0]);
      FreeRun(free, frames[1..]);
      if next.open {
        RefusalExact(next, frames[1..], if free.sent == c.sent then k else k - 1);
      }
    }
  }

  lemma RefusalStep(c: Conn, frame: seq<Byte>)
    requires c.open
    ensures var next, free := CarryOut(c, frame), CarryOut(c.(refuses := None), frame);
            && free.open && free.refuses == None && free.done == c.done + [frame]
            && free.requests - c.requests == |free.sent| - |c.sent|
            && (free.sent == c.sent || (|free.sent| == |c.sent| + 1 && free.sent[..|c.sent|] == c.sent))
            && next == if free.sent != c.sent && c.refuses == Some(|c.sent|)
                       then Close(free.(refuses := c.refuses, sent := c.sent)) else free.(refuses := c.refuses)
  {
    hide AduExec;
  }

  /** Without refusals replies and frames only accumulate. */
  lemma {:induction false} FreeRun(c: Conn, frames: seq<seq<Byte>>)
    requires c.open && c.refuses == None
    ensures var free := CarryOutAll(c, frames);
            && free.open && free.requests - c.requests == |free.sent| - |c.sent| >= 0
            && c.sent == free.sent[..|c.sent|] && IsPrefix(c.done, free.done)
    decreases |frames|
  {
    hide CarryOut;
    if frames != [] {
      RefusalStep(c, frames[0]);
      FreeRun(CarryOut(c, frames[0]), frames[1..]);
    }
  }

  /** Receiving more of the stream continues where the reference left off. */
  lemma WholeMore(c: Conn, s: seq<Byte>, more: seq<Byte>)
    requires c.open
    ensures var half := Whole(c, s);
            if half.open then Whole(half, half.buf + more) == Whole(c, s + more) else Whole(c, s + more) == half
  {
    hide CarryOut, Complete, Impossible, Parse;
    var p := Parse(s);
    var half := Whole(c, s);
    ParseMore(s, more);
    BufferIsApart(c, p.frames, p.rest);
    var q := Parse(p.rest + more);
    CarryOutMore(c, p.frames, q.frames);
    if half.open {
      BufferIsApart(CarryOutAll(c, p.frames), q.frames, p.rest);
    }
  }

  lemma {:induction false} ClosedStaysClosed(c: Conn, chunks: seq<seq<Byte>>)
    requires !c.open
    ensures ReceiveAll(c, chunks) == c
    decreases |chunks|
  {
    if chunks != [] {
      ClosedStaysClosed(c, chunks[1..]);
    }
  }

  /** Reassembly: however a stream is cut into chunks, if none overruns the buffer, the frames carried out, the
      replies, the devices, what is left in the buffer and whether the connection ends are those of the whole
      stream. */
  lemma {:induction false} Reassembly(c: Conn, chunks: seq<seq<Byte>>)
    requires c.open && NoOverrun(c, chunks) && !Complete(c.buf) && !Impossible(c.buf)
    ensures ReceiveAll(c, chunks) == Whole(c, c.buf + Flatten(chunks))
    decreases |chunks|
  {
    hide Drain, Complete, Impossible, CarryOutAll;
    if chunks == [] {
      assert c.buf + Flatten(chunks) == c.buf;
      NothingYet(c);
    } else {
      var next := Receive(c, chunks[0]);
      var so := c.buf + chunks[0];
      assert next == Whole(c, so) by {
        DrainIsWhole(c.(buf := so));
        SameStart(c, so, so);
      }
      WholeMore(c, so, Flatten(chunks[1..]));
      assert c.buf + Flatten(chunks) == so + Flatten(chunks[1..]);
      if next.open {
        Remainder(c, so);
        Reassembly(next, chunks[1..]);
      } else {
        ClosedStaysClosed(next, chunks[1..]);
      }
    }
  }

  lemma NothingYet(c: Conn)
    requires !Complete(c.buf) && !Impossible(c.buf)
    ensures Whole(c, c.buf) == c
  {
  }

  lemma SameStart(c: Conn, buf: seq<Byte>, s: seq<Byte>)
    requires c.open
    ensures Whole(c.(buf := buf), s) == Whole(c, s)
  {
    hide Parse, CarryOutAll;
    BufferIsApart(c, Parse(s).frames, buf);
  }

  /** The connection ends exactly by a refused reply or an impossible length field; while it stays open, the frames
      carried out and the buffer are the bytes received, and the buffer holds less than one frame. */
  lemma Remainder(c: Conn, s: seq<Byte>)
    requires c.open
    ensures var after := Whole(c, s);
            && IsPrefix(after.done, c.done + Parse(s).frames)
            && (after.open <==> CarryOutAll(c, Parse(s).frames).open && !Impossible(Parse(s).rest))
            && (after.open ==> !Complete(after.buf) && !Impossible(after.buf) && |after.buf| < ADU_MAX
                               && after.done == c.done + Parse(s).frames
                               && Flatten(Parse(s).frames) + after.buf == s)
  {
    ParseDivides(s);
    hide Parse, CarryOutAll, Flatten;
    BufferIsApart(c, Parse(s).frames, c.buf);
  }

  /** Two ways of cutting the same bytes have the same outcome. */
  lemma CutsAgree(c: Conn, one: seq<seq<Byte>>, other: seq<seq<Byte>>)
    requires c.open && !Complete(c.buf) && !Impossible(c.buf)
    requires NoOverrun(c, one) && NoOverrun(c, other) && Flatten(one) == Flatten(other)
    ensures ReceiveAll(c, one) == ReceiveAll(c, other)
  {
    hide Complete, Impossible, ReceiveAll, NoOverrun, Whole, Flatten;
    Reassembly(c, one);
    Reassembly(c, other);
  }

  /** Exactly when one chunk is handled as the stream it continues: it fits in the buffer, or the very next
      length field ends the connection anyway. */
  lemma ChunkExact(c: Conn, chunk: seq<Byte>)
    requires c.open && !Complete(c.buf) && !Impossible(c.buf)
    ensures Receive(c, chunk) == Whole(c, c.buf + chunk) <==>
            |c.buf| + |chunk| <= ADU_MAX || Impossible(c.buf + chunk)
  {
    hide AduExec, Drain, CarryOutAll;
    var s := c.buf + chunk;
    BufferIsApart(c, Parse(s).frames, s);
    if |s| <= ADU_MAX {
      DrainIsWhole(c.(buf := s));
      SameStart(c, s, s);
    } else if Impossible(s) {
      assert Parse(s) == Parsed([], s);
      assert CarryOutAll(c, []) == c by { NoFrames(c); }
    } else {
      assert Complete(s);
      assert |Parse(s).frames| > 0;
      assert |Whole(c, s).done| > |c.done|;
    }
  }

  lemma NoFrames(c: Conn)
    ensures CarryOutAll(c, []) == c
  {
  }

  /** A stream delivered byte by byte never overruns. */
  lemma {:induction false} BytesNeverOverrun(c: Conn, chunks: seq<seq<Byte>>)
    requires !Complete(c.buf) && !Impossible(c.buf) && forall k :: k in chunks ==> |k| <= 1
    ensures NoOverrun(c, chunks)
    decreases |chunks|
  {
    hide Drain, CarryOutAll, Flatten;
    if chunks != [] {
      assert |c.buf| < ADU_MAX;
      assert chunks[0] in chunks;
      var next := Receive(c, chunks[0]);
      if c.open {
        var so := c.buf + chunks[0];
        DrainIsWhole(c.(buf := so));
        SameStart(c, so, so);
        Remainder(c, so);
        BufferIsApart(c, Parse(so).frames, so);
      }
      assert !Complete(next.buf) && !Impossible(next.buf);
      hide Complete, Impossible;
      BytesNeverOverrun(next, chunks[1..]);
    }
  }

  // --------------------------------------------------- requests by stream

  lemma AduIsFrame(hi: Byte, lo: Byte, body: seq<Byte>)
    requires 1 <= |body| <= PDU_MAX
    ensures IsFrame(Adu(hi, lo, body))
  {
    hide Adu, Be16;
    AduParts(hi, lo, body);
  }

  lemma AduIsExecuted(img: Image, hi: Byte, lo: Byte, req: seq<Byte>)
    requires 2 <= |req| <= PDU_MAX
    ensures var (after, reply) := PduExec(img, req);
            1 <= |reply| <= PDU_MAX && AduExec(img, Adu(hi, lo, req)) == (after, Adu(hi, lo, reply))
  {
    hide PduExec, Adu, Be16;
    ReplyShape(img, req);
    AduParts(hi, lo, req);
  }

  /** The TCP stack takes the next two replies. */
  predicate TakesTwo(c: Conn) { c.refuses != Some(|c.sent|) && c.refuses != Some(|c.sent| + 1) }

  /** What two framed requests in a row do to an idle connection, whatever segments they arrive in. */
  lemma TwoRequests(c: Conn, chunks: seq<seq<Byte>>, hi: Byte, lo: Byte, one: seq<Byte>, two: seq<Byte>)
    requires c.open && c.buf == [] && NoOverrun(c, chunks) && TakesTwo(c)
    requires 2 <= |one| <= PDU_MAX && 2 <= |two| <= PDU_MAX
    requires Flatten(chunks) == Adu(hi, lo, one) + Adu(hi, lo, two)
    ensures var (first, reply) := PduExec(c.img, one);
            var (second, answer) := PduExec(first, two);
            && 1 <= |reply| <= PDU_MAX && 1 <= |answer| <= PDU_MAX
            && ReceiveAll(c, chunks).img == second && ReceiveAll(c, chunks).open
            && ReceiveAll(c, chunks).sent == c.sent + [Adu(hi, lo, reply), Adu(hi, lo, answer)]
  {
    hide PduExec, AduExec, Adu, IsFrame, ReceiveAll, NoOverrun, Parse, CarryOutAll, Flatten;
    var f, g := Adu(hi, lo, one), Adu(hi, lo, two);
    AduIsExecuted(c.img, hi, lo, one);
    AduIsExecuted(PduExec(c.img, one).0, hi, lo, two);
    Reassembly(c, chunks);
    assert c.buf + Flatten(chunks) == f + g;
    AduIsFrame(hi, lo, one);
    AduIsFrame(hi, lo, two);
    ParseTwo(f, g);
    CarryOutTwo(c, f, g);
    var reply, answer := AduExec(c.img, f).1, AduExec(AduExec(c.img, f).0, g).1;
    assert c.sent + [reply] + [answer] == c.sent + [reply, answer];
  }

  lemma ParseTwo(f: seq<Byte>, g: seq<Byte>)
    requires IsFrame(f) && IsFrame(g)
    ensures Parse(f + g) == Parsed([f, g], [])
  {
    hide IsFrame, Parse;
    FramesParse([f, g]);
    FlattenCons(f, [g]);
    FlattenCons(g, []);
    assert [f] + [g] == [f, g] && [g] + [] == [g] && g + Flatten([]) == g;
  }

  lemma CarryOutTwo(c: Conn, f: seq<Byte>, g: seq<Byte>)
    requires CarryOut(c, f).open && c.open
    ensures CarryOutAll(c, [f, g]) == CarryOut(CarryOut(c, f), g)
  {
    hide CarryOut;
    assert [f, g][1..] == [g];
    assert CarryOutAll(CarryOut(c, f), [g]) == CarryOutAll(CarryOut(CarryOut(c, f), g), [g][1..]);
  }

  /** End to end: an accepted register write, then a read of the same range, cut into segments in any way that
      does not overrun, is answered by the echo and by exactly the bytes written. */
  lemma StreamWriteThenRead(c: Conn, chunks: seq<seq<Byte>>, hi: Byte, lo: Byte, req: seq<Byte>)
    requires c.open && c.buf == [] && NoOverrun(c, chunks) && TakesTwo(c)
    requires 6 <= |req| <= PDU_MAX && req[1] == 0x10 && PduExec(c.img, req).1 == Echo(req)
    requires Flatten(chunks) == Adu(hi, lo, req) + Adu(hi, lo, ReadBack(req, 0x03))
    ensures GoodRegisterWrite(req) && Count(req) <= 125
    ensures ReceiveAll(c, chunks).sent == c.sent + [Adu(hi, lo, Echo(req)), Adu(hi, lo, PayloadReply(req))]
  {
    hide PduExec, Adu, ReceiveAll, NoOverrun, Flatten, ReadBack, Echo;
    RegistersRoundTrip(c.img, req);
    TwoRequests(c, chunks, hi, lo, req, ReadBack(req, 0x03));
  }
}
