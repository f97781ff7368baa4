/** The mouse ring of kernel/drivers/mouse.c, run sequentially: bytes are assembled into packets, the
    ring keeps the newest 64 and drops the oldest. */
module Mouse {
  import opened Bits

  const SIZE: nat := 64

  datatype Move = Move(buttons: nat, x: int, y: int, dx: int, dy: int, packets: nat, errors: nat)

  // ---------------------------------------------------------------- packets

  /** What one byte does to the bytes collected so far: a byte without bit 3 starts over and counts
      as an error; the third byte completes a packet, refused when an overflow bit is set. */
  datatype Fed = More(bytes: seq<byte>, bad: bool) | Packet(bytes: seq<byte>)

  function Feed(partial: seq<byte>, b: byte): Fed {
    if And(b, 8) == 0 || |partial| == 3 then More([b], true)
    else if |partial| != 2 then More(partial + [b], false)
    else if And(partial[0], 0xC0) != 0 then More([], true)
    else Packet(partial + [b])
  }

  /** The motion a packet reports: nine-bit two's complement, y upward. */
  function Decode(p: seq<byte>, last: Move): Move
    requires |p| == 3
  {
    var dx := p[1] as int - (if And(p[0], 0x10) != 0 then 256 else 0);
    var dy := p[2] as int - (if And(p[0], 0x20) != 0 then 256 else 0);
    Move(And(p[0], 7), last.x + dx, last.y - dy, dx, -dy, last.packets + 1, last.errors)
  }

  /** v is the nine-bit two's complement number with the given sign and low byte. */
  ghost predicate NineBit(v: int, negative: bool, low: byte) {
    -256 <= v < 256 && v % 256 == low && (v < 0 <==> negative)
  }

  lemma {:induction false} SignedByte(low: byte, negative: bool)
    ensures NineBit(low - (if negative then 256 else 0), negative, low)
  {
  }

  /** Motion, buttons and counters of a packet, from its bytes: x to the right in byte 1 with its sign in
      bit 4 of byte 0, y downward in byte 2 with its sign in bit 5. */
  lemma {:induction false} DecodeMeans(p: seq<byte>, last: Move)
    requires |p| == 3
    ensures var m := Decode(p, last);
      && NineBit(m.dx, Bit(p[0], 4), p[1]) && NineBit(-m.dy, Bit(p[0], 5), p[2]) && m.buttons == p[0] % 8
      && m.x == last.x + m.dx && m.y == last.y + m.dy
      && m.packets == last.packets + 1 && m.errors == last.errors
  {
    Powers();
    TestBit(p[0], 4);
    TestBit(p[0], 5);
    SignedByte(p[1], Bit(p[0], 4));
    SignedByte(p[2], Bit(p[0], 5));
    AndMask(p[0], 3);
  }

  /** What each byte does: without bit 3 it starts over and is an error; the first two bytes with it are
      kept; the third completes the packet, in order, unless byte 0 has bit 6 or 7, which is an error. */
  lemma {:induction false} FeedMeans(partial: seq<byte>, b: byte)
    requires |partial| <= 2
    ensures !Bit(b, 3) ==> Feed(partial, b) == More([b], true)
    ensures Bit(b, 3) && |partial| < 2 ==> Feed(partial, b) == More(partial + [b], false)
    ensures Bit(b, 3) && |partial| == 2 ==>
              Feed(partial, b) == if Bit(partial[0], 6) || Bit(partial[0], 7) then More([], true)
                                  else Packet(partial + [b])
  {
    Powers();
    TestBit(b, 3);
    if |partial| == 2 { OverflowBits(partial[0]); }
  }

  lemma {:induction false} OverflowBits(x: byte)
    ensures And(x, 0xC0) != 0 <==> Bit(x, 6) || Bit(x, 7)
  {
    Powers();
    AndShiftedSix(x, 3);
    AndMask(x / 64, 2);
    BitAt(x, 6);
    BitAt(x, 7);
    LowBits(x / 64);
    assert x / 128 == x / 64 / 2;
  }

  lemma {:induction false} LowBits(y: nat)
    ensures y % 4 != 0 <==> y % 2 == 1 || y / 2 % 2 == 1
  {
  }

  // ---------------------------------------------------------------- history

  /** Packets accepted since the start, how many of them were read, dropped and flushed, and how many
      had been accepted at the last flush. */
  datatype Log = Log(accepted: seq<Move>, read: nat, dropped: nat, flushed: nat, mark: nat)

  function Gone(log: Log): nat { log.read + log.dropped + log.flushed }

  ghost function Queued(log: Log): seq<Move>
    requires Gone(log) <= |log.accepted|
  {
    log.accepted[Gone(log)..]
  }

  function SumX(moves: seq<Move>, k: nat): int
    requires k <= |moves|
    decreases |moves| - k
  {
    if k == |moves| then 0 else moves[k].dx + SumX(moves, k + 1)
  }

  function SumY(moves: seq<Move>, k: nat): int
    requires k <= |moves|
    decreases |moves| - k
  {
    if k == |moves| then 0 else moves[k].dy + SumY(moves, k + 1)
  }

  lemma {:induction false} SumsAppend(moves: seq<Move>, m: Move, k: nat)
    requires k <= |moves|
    ensures SumX(moves + [m], k) == SumX(moves, k) + m.dx && SumY(moves + [m], k) == SumY(moves, k) + m.dy
    decreases |moves| - k
  {
    if k < |moves| { SumsAppend(moves, m, k + 1); }
  }

  function Accept(log: Log, m: Move, full: bool): Log {
    log.(accepted := log.accepted + [m], dropped := if full then log.dropped + 1 else log.dropped)
  }

  /** The ring holds exactly the packets not yet gone, oldest at the head. */
  ghost predicate RingHolds(queue: seq<Move>, head: nat, used: nat, log: Log) {
    && |queue| == SIZE && head < SIZE && used <= SIZE
    && Gone(log) + used == |log.accepted|
    && forall i :: 0 <= i < used ==> SlotHolds(queue, head, log, i)
  }

  /** Slot i after the head holds the i-th packet not yet gone. */
  ghost predicate SlotHolds(queue: seq<Move>, head: nat, log: Log, i: int)
    requires |queue| == SIZE && 0 <= i && Gone(log) + i < |log.accepted|
  {
    queue[(head + i) % SIZE] == log.accepted[Gone(log) + i]
  }

  lemma {:induction false} AppendHolds(queue: seq<Move>, head: nat, used: nat, log: Log, m: Move)
    requires RingHolds(queue, head, used, log) && used < SIZE
    ensures RingHolds(queue[(head + used) % SIZE := m], head, used + 1, Accept(log, m, false))
  {
    var next := queue[(head + used) % SIZE := m];
    forall i | 0 <= i < used + 1
      ensures SlotHolds(next, head, Accept(log, m, false), i)
    {
      if i < used {
        assert SlotHolds(queue, head, log, i);
        assert (head + i) % SIZE != (head + used) % SIZE;
      }
    }
  }

  lemma {:induction false} OverwriteHolds(queue: seq<Move>, head: nat, log: Log, m: Move)
    requires RingHolds(queue, head, SIZE, log)
    ensures RingHolds(queue[head := m], (head + 1) % SIZE, SIZE, Accept(log, m, true))
  {
    var next, log', head' := queue[head := m], Accept(log, m, true), (head + 1) % SIZE;
    forall i | 0 <= i < SIZE
      ensures SlotHolds(next, head', log', i)
    {
      assert (head' + i) % SIZE == (head + (i + 1)) % SIZE;
      if i < SIZE - 1 {
        assert SlotHolds(queue, head, log, i + 1);
        assert (head + (i + 1)) % SIZE != head;
      }
    }
  }

  lemma {:induction false} ReadHolds(queue: seq<Move>, head: nat, used: nat, log: Log)
    requires RingHolds(queue, head, used, log) && used > 0
    ensures queue[head] == log.accepted[Gone(log)]
    ensures RingHolds(queue, (head + 1) % SIZE, used - 1, log.(read := log.read + 1))
  {
    var log', head' := log.(read := log.read + 1), (head + 1) % SIZE;
    assert SlotHolds(queue, head, log, 0) && (head + 0) % SIZE == head;
    forall i | 0 <= i < used - 1
      ensures SlotHolds(queue, head', log', i)
    {
      assert SlotHolds(queue, head, log, i + 1);
      assert (head' + i) % SIZE == (head + (i + 1)) % SIZE;
    }
  }

  // ---------------------------------------------------------------- the driver

  datatype Event = Interrupt(b: byte) | Read | Flush

  /** The driver without its ring: what an event does to the packet bytes, the last state and the history. */
  datatype Model = Model(partial: seq<byte>, last: Move, log: Log)

  function Waiting(m: Model): int { |m.log.accepted| - Gone(m.log) }

  function After(m: Model, e: Event): Model {
    match e
    case Interrupt(b) =>
      (match Feed(m.partial, b)
       case More(p, bad) => Model(p, if bad then m.last.(errors := m.last.errors + 1) else m.last, m.log)
       case Packet(p) =>
         if |p| != 3 then m
         else Model([], Decode(p, m.last), Accept(m.log, Decode(p, m.last), Waiting(m) >= SIZE)))
    case Read => if Waiting(m) <= 0 then m else m.(log := m.log.(read := m.log.read + 1))
    case Flush =>
      var n := if Waiting(m) < 0 then 0 else Waiting(m);
      Model(m.partial, m.last.(x := 0, y := 0),
            m.log.(flushed := m.log.flushed + n, mark := |m.log.accepted|))
  }

  function Replay(m: Model, events: seq<Event>): Model
    decreases |events|
  {
    if |events| == 0 then m else Replay(After(m, events[0]), events[1..])
  }

  lemma {:induction false} ByteKept(m: Model, b: byte)
    requires |m.partial| < 2 && Bit(b, 3)
    ensures After(m, Interrupt(b)) == m.(partial := m.partial + [b])
  {
    FeedMeans(m.partial, b);
  }

  lemma {:induction false} PacketCompleted(m: Model, b: byte)
    requires |m.partial| == 2 && Bit(b, 3) && !Bit(m.partial[0], 6) && !Bit(m.partial[0], 7)
    ensures var n, p := After(m, Interrupt(b)), m.partial + [b];
      n.partial == [] && n.last == Decode(p, m.last) && n.log.accepted == m.log.accepted + [n.last]
  {
    FeedMeans(m.partial, b);
  }

  /** Three bytes with bit 3 set, the first without an overflow bit, are one accepted packet with the
      motion they encode, whatever came before a packet boundary. */
  lemma {:induction false} PacketAccepted(m: Model, b0: byte, b1: byte, b2: byte)
    requires m.partial == [] && Bit(b0, 3) && Bit(b1, 3) && Bit(b2, 3) && !Bit(b0, 6) && !Bit(b0, 7)
    ensures var n := Replay(m, [Interrupt(b0), Interrupt(b1), Interrupt(b2)]);
      && n.partial == [] && n.log.accepted == m.log.accepted + [n.last]
      && NineBit(n.last.dx, Bit(b0, 4), b1) && NineBit(-n.last.dy, Bit(b0, 5), b2) && n.last.buttons == b0 % 8
      && n.last.x == m.last.x + n.last.dx && n.last.y == m.last.y + n.last.dy && n.last.errors == m.last.errors
  {
    ThreeBytes(m, b0, b1, b2);
    var m2 := m.(partial := [b0, b1]);
    PacketCompleted(m2, b2);
    assert m2.partial + [b2] == [b0, b1, b2];
    DecodeMeans([b0, b1, b2], m.last);
  }

  lemma {:induction false} ThreeBytes(m: Model, b0: byte, b1: byte, b2: byte)
    requires m.partial == [] && Bit(b0, 3) && Bit(b1, 3)
    ensures Replay(m, [Interrupt(b0), Interrupt(b1), Interrupt(b2)]) == After(m.(partial := [b0, b1]), Interrupt(b2))
  {
    var e0, e1, e2 := Interrupt(b0), Interrupt(b1), Interrupt(b2);
    var m1, m2 := m.(partial := [b0]), m.(partial := [b0, b1]);
    ByteKept(m, b0);
    ByteKept(m1, b1);
    assert [] + [b0] == [b0] && [b0] + [b1] == [b0, b1];
    assert [e0, e1, e2] == [e0] + [e1, e2] && [e1, e2] == [e1] + [e2] && [e2] == [e2] + [];
    ReplayStep(m, e0, [e1, e2]);
    ReplayStep(m1, e1, [e2]);
    ReplayStep(m2, e2, []);
  }

  lemma {:induction false} ReplayStep(m: Model, e: Event, rest: seq<Event>)
    ensures Replay(m, [e] + rest) == Replay(After(m, e), rest)
  {
    assert ([e] + rest)[1..] == rest;
  }

  class Driver {
    const queue: array<Move>
    var partial: seq<byte>
    var last: Move
    var head: nat
    var used: nat
    var drops: nat
    ghost var log: Log
    ghost var drops0: nat

    /** The ring, the drop counter and the position agree with the history. */
    ghost predicate Valid()
      reads this, queue
    {
      && queue.Length == SIZE && |partial| <= 2
      && RingHolds(queue[..], head, used, log) && drops == drops0 + log.dropped
      && log.mark <= |log.accepted| && last.packets == |log.accepted|
      && last.x == SumX(log.accepted, log.mark) && last.y == SumY(log.accepted, log.mark)
    }

    ghost function View(): Model
      reads this
    {
      Model(partial, last, log)
    }

    constructor ()
      ensures fresh(queue) && queue.Length == SIZE
    {
      queue := new Move[SIZE](_ => Move(0, 0, 0, 0, 0, 0, 0));
      partial, last, head, used, drops := [], Move(0, 0, 0, 0, 0, 0, 0), 0, 0, 0;
      log, drops0 := Log([], 0, 0, 0, 0), 0;
    }

    /** `qizo_mouse_start`: everything is reset except the drop counter. */
    method Start()
      requires queue.Length == SIZE
      modifies this
      ensures Valid() && log == Log([], 0, 0, 0, 0) && drops == old(drops)
      ensures partial == [] && head == 0 && used == 0 && last == Move(0, 0, 0, 0, 0, 0, 0)
    {
      last := Move(0, 0, 0, 0, 0, 0, 0);
      head, used, partial := 0, 0, [];
      log, drops0 := Log([], 0, 0, 0, 0), drops;
    }

    /** `qizo_mouse_interrupt`. */
    method OnInterrupt(b: byte)
      requires Valid()
      modifies this`partial, this`last, this`head, this`used, this`drops, this`log, queue
      ensures Valid() && View() == After(old(View()), Interrupt(b))
    {
      match Feed(partial, b) {
        case More(p, bad) =>
          partial := p;
          if bad {
            last := last.(errors := last.errors + 1);
          }
        case Packet(p) =>
          partial := [];
          last := Decode(p, last);
          Enqueue(last);
      }
    }

    /** The newest packet goes in; a full ring loses its oldest. */
    method Enqueue(move: Move)
      requires queue.Length == SIZE && RingHolds(queue[..], head, used, log) && log.mark <= |log.accepted|
      modifies this`head, this`used, this`drops, this`log, queue
      ensures RingHolds(queue[..], head, used, log) && log == Accept(old(log), move, old(used) == SIZE)
      ensures drops == old(drops) + (if old(used) == SIZE then 1 else 0)
      ensures SumX(log.accepted, log.mark) == old(SumX(log.accepted, log.mark)) + move.dx
      ensures SumY(log.accepted, log.mark) == old(SumY(log.accepted, log.mark)) + move.dy
    {
      SumsAppend(log.accepted, move, log.mark);
      if used < SIZE {
        AppendHolds(queue[..], head, used, log, move);
        queue[(head + used) % SIZE] := move;
        used := used + 1;
        log := Accept(log, move, false);
      } else {
        OverwriteHolds(queue[..], head, log, move);
        queue[head] := move;
        head := (head + 1) % SIZE;
        drops := drops + 1;
        log := Accept(log, move, true);
      }
    }

    /** `qizo_mouse_read`: the oldest packet still queued. */
    method ReadPacket() returns (ok: bool, out: Move)
      requires Valid()
      modifies this`head, this`used, this`log
      ensures Valid() && View() == After(old(View()), Read)
      ensures ok == (old(Queued(log)) != []) && (ok ==> out == old(Queued(log))[0])
    {
      out := last;
      if used == 0 {
        return false, out;
      }
      ReadHolds(queue[..], head, used, log);
      out := queue[head];
      head := (head + 1) % SIZE;
      used := used - 1;
      log := log.(read := log.read + 1);
      return true, out;
    }

    /** `qizo_mouse_flush`. */
    method FlushQueue()
      requires Valid()
      modifies this`head, this`used, this`last, this`log
      ensures Valid() && View() == After(old(View()), Flush)
    {
      log := log.(flushed := log.flushed + used, mark := |log.accepted|);
      head := 0;
      used := 0;
      last := last.(x := 0, y := 0);
    }

    /** After any sequential run: the queue is the last `used` accepted packets in order, accepted
        equals read plus dropped plus flushed plus queued, and the position is the sum of the motions
        accepted since the last flush. */
    method Drive(events: seq<Event>)
      requires Valid()
      modifies this`partial, this`last, this`head, this`used, this`drops, this`log, queue
      ensures Valid() && used <= 64 && View() == Replay(old(View()), events)
      ensures |log.accepted| == log.read + log.dropped + log.flushed + used
      ensures Gone(log) <= |log.accepted| && Queued(log) == log.accepted[|log.accepted| - used..]
      ensures log.mark <= |log.accepted| && last.x == SumX(log.accepted, log.mark) && last.y == SumY(log.accepted, log.mark)
      ensures drops - drops0 == log.dropped
    {
      var i: nat := 0;
      assert events[0..] == events;
      while i < |events|
        invariant i <= |events| && Valid()
        invariant Replay(old(View()), events) == Replay(View(), events[i..])
      {
        assert events[i..][1..] == events[i + 1..];
        match events[i] {
          case Interrupt(b) => OnInterrupt(b);
          case Read => var ok, out := ReadPacket();
          case Flush => FlushQueue();
        }
        i := i + 1;
      }
    }
  }
}
