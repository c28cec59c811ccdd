/** One Modbus client: a receive buffer filled chunk by chunk and emptied frame by frame. */
module TcpConnection {
  import opened Words
  import opened PlcMemory
  import opened ModbusPdu
  import opened ModbusServer
  import opened ModbusTcp

  class Connection {
    const server: Server
    const buf: array<Byte>
    const resp: array<Byte>
    /** The reply that tcp_write refuses, if any. */
    const refuses: Option<nat>
    var len: nat
    var open: bool
    var requests: nat
    /** Every reply handed to the TCP stack. */
    var sent: seq<seq<Byte>>
    ghost var done: seq<seq<Byte>>

    ghost predicate Valid()
      reads this
    {
      && server.Valid() && buf.Length == ADU_MAX && resp.Length == ADU_MAX && buf != resp
      && buf !in server.mem.Repr() && resp !in server.mem.Repr() && this !in server.mem.Repr()
      && len <= ADU_MAX && (!open ==> len == 0)
    }

    ghost function View(): Conn
      requires Valid()
      reads this, buf, server.mem.Repr()
    {
      Conn(server.mem.Img(), buf[..len], open, done, sent, requests, refuses)
    }

    constructor (server: Server, refuses: Option<nat>)
      requires server.Valid()
      ensures Valid() && this.server == server && fresh(buf) && fresh(resp)
      ensures View() == Conn(server.mem.Img(), [], true, [], [], 0, refuses)
    {
      this.server, this.refuses := server, refuses;
      buf, resp := new Byte[ADU_MAX](_ => 0), new Byte[ADU_MAX](_ => 0);
      len, open, requests, sent, done := 0, true, 0, [], [];
    }

    /** memmove: what follows the first total bytes comes to the front. */
    method Shift(total: nat)
      requires Valid() && total <= len
      modifies this`len, buf
      ensures Valid() && len == old(len) - total && View() == old(View()).(buf := old(View()).buf[total..])
    {
      hide Memory.Img;
      var rest := len - total;
      for i := 0 to rest
        invariant forall k :: 0 <= k < i ==> buf[k] == old(buf[total + k])
        invariant forall k :: total + i <= k < buf.Length ==> buf[k] == old(buf[k])
      {
        buf[i] := buf[total + i];
      }
      assert buf[..rest] == old(buf[total..len]) == old(View()).buf[total..];
      len := rest;
    }

    /** One whole frame from the front of the buffer is carried out and answered; false when the answer is refused,
        which leaves the frame in the buffer. */
    method Execute(total: nat) returns (ok: bool)
      requires Valid() && open && Complete(buf[..len]) && total == 6 + Claimed(buf[..len])
      modifies this`len, this`requests, this`sent, this`done, buf, resp, server.mem.Repr()
      ensures Valid()
      ensures var after := Keep(CarryOut(old(View()), old(View()).buf[..total]), old(View()).buf[total..]);
              ok == after.open && after == if ok then View() else Close(View())
      ensures len == if ok then old(len) - total else old(len)
    {
      hide AduExec, Memory.Img, CarryOut, Keep;
      ghost var before := View();
      KeepCarried(before, before.buf[..total], before.buf[total..]);
      hide Complete, Claimed;
      var n := CarryOutFirst(total);
      hide View;
      ok := Offer(n);
      if ok {
        Shift(total);
      }
    }

    /** modbus_tcp_adu_exec on the first total bytes; the reply is left in resp. */
    method CarryOutFirst(total: nat) returns (n: nat)
      requires Valid() && open && total <= len
      modifies this`done, resp, server.mem.Repr()
      ensures Valid() && n <= resp.Length
      ensures var c := old(View());
              var (img, reply) := AduExec(c.img, c.buf[..total]);
              resp[..n] == reply && View() == c.(img := img, done := c.done + [c.buf[..total]])
    {
      hide AduExec, Memory.Img;
      ghost var frame := buf[..total];
      assert frame == View().buf[..total];
      n := server.ExecAdu(buf[..total], resp);
      done := done + [frame];
    }

    /** tcp_write of the reply, if there is one; false when it is refused. */
    method Offer(n: nat) returns (ok: bool)
      requires Valid() && n <= resp.Length
      modifies this`requests, this`sent
      ensures Valid() && ok == (n == 0 || refuses != Some(old(|sent|)))
      ensures View() == old(View()).(requests := old(requests) + if n == 0 then 0 else 1,
                                     sent := if n == 0 || !ok then old(sent) else old(sent) + [resp[..n]])
    {
      hide Memory.Img;
      if n == 0 {
        return true;
      }
      requests := requests + 1;
      if refuses == Some(|sent|) {
        return false;
      }
      sent := sent + [resp[..n]];
      return true;
    }

    /** consume: false when the next length field is impossible or a reply is refused. */
    method Consume() returns (ok: bool)
      requires Valid() && open
      modifies this`len, this`requests, this`sent, this`done, buf, resp, server.mem.Repr()
      ensures Valid() && ok == Drain(old(View())).open
      ensures (if ok then View() else Close(View())) == Drain(old(View()))
    {
      hide CarryOut, Memory.Img, Drain, Keep;
      while len >= 6
        invariant Valid() && open == old(open)
        invariant Drain(View()) == Drain(old(View()))
        decreases len
      {
        var claimed := Be16(buf[..len], 4);
        if claimed == 0 || claimed > PDU_MAX {
          DrainEnds(View());
          return false;
        }
        var total := 6 + claimed;
        if len < total {
          DrainEnds(View());
          return true;
        }
        DrainStep(View());
        var taken := Execute(total);
        if !taken {
          return false;
        }
      }
      DrainEnds(View());
      return true;
    }

    /** on_recv: a chunk that fits is appended and consumed; one that does not, a closed peer and a receive error
        end the connection. */
    method OnReceive(arrival: Option<seq<Byte>>)
      requires Valid()
      modifies this`len, this`open, this`requests, this`sent, this`done, buf, resp, server.mem.Repr()
      ensures Valid() && View() == Arrive(old(View()), arrival)
    {
      hide Drain, Memory.Img;
      if !open {
        return;
      }
      if arrival == None || |arrival.value| > ADU_MAX - len {
        open, len := false, 0;
        return;
      }
      Append(arrival.value);
      var ok := Consume();
      if !ok {
        open, len := false, 0;
      }
    }

    method Append(chunk: seq<Byte>)
      requires Valid() && open && len + |chunk| <= ADU_MAX
      modifies this`len, buf
      ensures Valid() && View() == old(View()).(buf := old(View()).buf + chunk)
    {
      for i := 0 to |chunk|
        invariant len == old(len) && buf[..len] == old(buf[..len]) && buf[len..len + i] == chunk[..i]
      {
        buf[len + i] := chunk[i];
      }
      assert buf[..len + |chunk|] == buf[..len] + buf[len..len + |chunk|];
      len := len + |chunk|;
    }
  }

  lemma KeepCarried(c: Conn, frame: seq<Byte>, rest: seq<Byte>)
    requires c.open
    ensures var (img, reply) := AduExec(c.img, frame);
            var tried := c.(img := img, done := c.done + [frame], buf := rest);
            Keep(CarryOut(c, frame), rest) ==
            if reply == [] then tried
            else if c.refuses == Some(|c.sent|) then Close(tried.(requests := c.requests + 1))
            else tried.(requests := c.requests + 1, sent := c.sent + [reply])
  {
    hide AduExec;
  }
}
