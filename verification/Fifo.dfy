/** SFWR and SFRD on one table of registers refine a bounded queue. */
module Fifo {
  import opened Words
  import opened Devices
  import opened Applied

  datatype Request = Write(v: Word) | Read

  /** What the program sees after a request: M8022 after a write, M8020 and the destination after a read. */
  datatype Response = Wrote(refused: bool) | Got(empty: bool, value: Word)

  // ------------------------------------------------- the abstract queue

  function Accept(q: seq<Word>, capacity: nat, r: Request): seq<Word> {
    match r
    case Write(v) => if |q| < capacity then q + [v] else q
    case Read => if q == [] then q else q[1..]
  }

  /** A read of an empty queue leaves the destination register as it was. */
  function Answer(q: seq<Word>, capacity: nat, kept: Word, r: Request): Response {
    match r
    case Write(_) => Wrote(|q| >= capacity)
    case Read => Got(q == [], if q == [] then kept else q[0])
  }

  function AcceptAll(q: seq<Word>, capacity: nat, rs: seq<Request>): seq<Word>
    decreases |rs|
  {
    if rs == [] then q else AcceptAll(Accept(q, capacity, rs[0]), capacity, rs[1..])
  }

  function AnswerAll(q: seq<Word>, capacity: nat, kept: Word, rs: seq<Request>): seq<Response>
    decreases |rs|
  {
    if rs == [] then []
    else
      var a := Answer(q, capacity, kept, rs[0]);
      [a] + AnswerAll(Accept(q, capacity, rs[0]), capacity, if a.Got? then a.value else kept, rs[1..])
  }

  // ------------------------------------------------- the register table

  /** Table of n registers from `table` on: the count, then room for n-1 entries; reads go to dst outside it. */
  datatype Table = Table(base: nat, n: Word, dst: nat)

  predicate Placed(t: Table) {
    t.n >= 2 && t.base + t.n <= NUM_D && t.dst < NUM_D && (t.dst < t.base || t.dst >= t.base + t.n)
  }

  function Serve(img: Image, t: Table, r: Request): Image
    requires Placed(t)
  {
    match r
    case Write(v) => SfwrEffect(img, v, t.base, t.n)
    case Read => SfrdEffect(img, t.base, t.dst)
  }

  function Observed(img: Image, t: Table, r: Request): Response
    requires Placed(t)
  {
    match r
    case Write(_) => Wrote(GetM(img, 8022))
    case Read => Got(GetM(img, 8020), img.d[t.dst])
  }

  function ServeAll(img: Image, t: Table, rs: seq<Request>): Image
    requires Placed(t)
    decreases |rs|
  {
    if rs == [] then img else ServeAll(Serve(img, t, rs[0]), t, rs[1..])
  }

  function ObservedAll(img: Image, t: Table, rs: seq<Request>): seq<Response>
    requires Placed(t)
    decreases |rs|
  {
    if rs == [] then []
    else
      var after := Serve(img, t, rs[0]);
      [Observed(after, t, rs[0])] + ObservedAll(after, t, rs[1..])
  }

  /** The table holds queue q: its length, then its entries, oldest first. */
  predicate Holds(img: Image, t: Table, q: seq<Word>)
    requires Placed(t)
  {
    && |q| <= t.n - 1
    && img.d[t.base] == |q|
    && img.d[t.base + 1..t.base + 1 + |q|] == q
  }

  /** d with cells lo..hi-1 each holding what the next one held. */
  function Closed(d: seq<Word>, lo: nat, hi: nat): (r: seq<Word>)
    requires hi < |d|
    ensures |r| == |d|
  {
    seq(|d|, j requires 0 <= j < |d| => if lo <= j < hi then d[j + 1] else d[j])
  }

  lemma {:induction false} CloseUpShifts(img: Image, table: nat, i: nat, pointer: nat)
    requires 1 <= i <= pointer && table + pointer < NUM_D
    ensures CloseUp(img, table, i, pointer) == img.(d := Closed(img.d, table + i, table + pointer))
    decreases pointer - i
  {
    if i == pointer {
      assert Closed(img.d, table + i, table + i) == img.d;
    } else {
      var next := SetD(img, table + i, GetD(img, table + i + 1));
      assert CloseUp(img, table, i, pointer) == CloseUp(next, table, i + 1, pointer);
      hide CloseUp;
      CloseUpShifts(next, table, i + 1, pointer);
      assert Closed(next.d, table + i + 1, table + pointer) == Closed(img.d, table + i, table + pointer);
    }
  }

  /** The registers neither in the table nor the destination. */
  predicate SameElsewhere(after: Image, before: Image, t: Table)
    requires Placed(t)
  {
    forall i :: 0 <= i < NUM_D && i != t.dst && (i < t.base || i >= t.base + t.n) ==> after.d[i] == before.d[i]
  }

  lemma WriteRefines(img: Image, t: Table, q: seq<Word>, v: Word)
    requires Placed(t) && Holds(img, t, q)
    ensures var after := SfwrEffect(img, v, t.base, t.n);
            && Holds(after, t, Accept(q, t.n - 1, Write(v)))
            && GetM(after, 8022) == (|q| >= t.n - 1)
            && after.d[t.dst] == img.d[t.dst] && SameElsewhere(after, img, t)
  {
    var after := SfwrEffect(img, v, t.base, t.n);
    if |q| < t.n - 1 {
      assert after.d == img.d[t.base := |q| + 1][t.base + |q| + 1 := v];
      assert after.d[t.base + 1..t.base + 1 + |q| + 1] == img.d[t.base + 1..t.base + 1 + |q|] + [v];
    }
  }

  lemma ReadRegisters(img: Image, t: Table, count: nat, i: nat)
    requires Placed(t) && img.d[t.base] == count && 1 <= count <= t.n - 1 && i < NUM_D
    ensures var after := SfrdEffect(img, t.base, t.dst);
            && after.d[i] == (if i == t.base then count - 1
                              else if t.base < i < t.base + count then img.d[i + 1]
                              else if i == t.dst then img.d[t.base + 1]
                              else img.d[i])
            && !GetM(after, 8020)
  {
    var flagged := SetM(img, 8020, false);
    var taken := SetD(flagged, t.dst, GetD(flagged, t.base + 1));
    assert SfrdEffect(img, t.base, t.dst) == SetD(CloseUp(taken, t.base, 1, count), t.base, count - 1);
    hide CloseUp, SfrdEffect;
    CloseUpShifts(taken, t.base, 1, count);
  }

  lemma ReadElsewhere(img: Image, t: Table, count: nat)
    requires Placed(t) && img.d[t.base] == count && 1 <= count <= t.n - 1
    ensures SameElsewhere(SfrdEffect(img, t.base, t.dst), img, t)
  {
    var after := SfrdEffect(img, t.base, t.dst);
    hide SfrdEffect;
    forall i | 0 <= i < NUM_D && i != t.dst && (i < t.base || i >= t.base + t.n)
      ensures after.d[i] == img.d[i]
    {
      ReadRegisters(img, t, count, i);
    }
  }

  lemma ReadRefines(img: Image, t: Table, q: seq<Word>)
    requires Placed(t) && Holds(img, t, q)
    ensures var after := SfrdEffect(img, t.base, t.dst);
            && Holds(after, t, Accept(q, t.n - 1, Read))
            && GetM(after, 8020) == (q == [])
            && after.d[t.dst] == (if q == [] then img.d[t.dst] else q[0])
            && SameElsewhere(after, img, t)
  {
    if q == [] {
      hide CloseUp;
      assert GetM(SfrdEffect(img, t.base, t.dst), 8020);
    } else {
      var after := SfrdEffect(img, t.base, t.dst);
      hide SfrdEffect, GetM;
      assert img.d[t.base + 1] == img.d[t.base + 1..t.base + 1 + |q|][0];
      ReadRegisters(img, t, |q|, t.dst);
      ReadRegisters(img, t, |q|, t.base);
      ReadElsewhere(img, t, |q|);
      forall i: nat | t.base < i < t.base + |q|
        ensures after.d[i] == img.d[i + 1]
      {
        ReadRegisters(img, t, |q|, i);
      }
      assert img.d[t.base + 1..t.base + 1 + |q|][1..] == img.d[t.base + 2..t.base + 1 + |q|];
      assert after.d[t.base + 1..t.base + |q|] == img.d[t.base + 2..t.base + 1 + |q|];
    }
  }

  /** Over any sequence of writes and reads the table holds exactly what a bounded queue of capacity n-1
      holds, and every flag and every value read is the queue's answer. */
  lemma {:induction false} FifoRefinesQueue(img: Image, t: Table, q: seq<Word>, rs: seq<Request>)
    requires Placed(t) && Holds(img, t, q)
    ensures Holds(ServeAll(img, t, rs), t, AcceptAll(q, t.n - 1, rs))
    ensures ObservedAll(img, t, rs) == AnswerAll(q, t.n - 1, img.d[t.dst], rs)
    ensures SameElsewhere(ServeAll(img, t, rs), img, t)
    decreases |rs|
  {
    hide SfwrEffect, SfrdEffect;
    if rs != [] {
      match rs[0] {
        case Write(v) => WriteRefines(img, t, q, v);
        case Read => ReadRefines(img, t, q);
      }
      FifoRefinesQueue(Serve(img, t, rs[0]), t, Accept(q, t.n - 1, rs[0]), rs[1..]);
    }
  }
}
