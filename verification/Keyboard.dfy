/** The keyboard ring of kernel/drivers/kbd.c: one producer, the interrupt handler, and one consumer
    that it may interrupt between any two of its reads and writes. */
module Keyboard {
  import opened Bits

  const SIZE: nat := 256

  datatype Ring = Ring(queue: seq<byte>, head: nat, tail: nat)

  ghost predicate GoodRing(r: Ring) { |r.queue| == SIZE && r.head < SIZE && r.tail < SIZE }

  /** `push_key`: one slot stays empty, so a full ring drops the key. */
  function Push(r: Ring, c: byte): Ring
    requires r.head < |r.queue|
  {
    if Full(r) then r else r.(queue := r.queue[r.head := c], head := (r.head + 1) % SIZE)
  }

  predicate Full(r: Ring) { (r.head + 1) % SIZE == r.tail }

  /** Number of keys between the indices. */
  function Gap(head: nat, tail: nat): int {
    if head >= tail then head - tail else head + SIZE - tail
  }

  // ---------------------------------------------------------------- interleaved execution

  /** Where the reader is inside `qizo_kbd_get`, with what it has read so far. */
  datatype Reader = Outside | GotHead(h: nat) | NotEmpty | GotTail(t: nat) | GotKey(c: byte) | Leaving(c: byte, t: nat)

  /** One memory access of the reader, or one whole interrupt. */
  datatype Event = Interrupt(key: byte) | Advance

  /** The machine with its history: keys accepted into the ring and keys returned to the caller. */
  datatype Machine = Machine(ring: Ring, reader: Reader, accepted: seq<byte>, delivered: seq<byte>)

  function Next(m: Machine, e: Event): Machine
    requires m.ring.head < |m.ring.queue| && (m.reader.GotTail? ==> m.reader.t < |m.ring.queue|)
  {
    match e
    case Interrupt(c) =>
      m.(ring := Push(m.ring, c), accepted := if Full(m.ring) then m.accepted else m.accepted + [c])
    case Advance =>
      match m.reader
      case Outside => m.(reader := GotHead(m.ring.head))
      case GotHead(h) => m.(reader := if h == m.ring.tail then Outside else NotEmpty)
      case NotEmpty => m.(reader := GotTail(m.ring.tail))
      case GotTail(t) => m.(reader := GotKey(m.ring.queue[t]))
      case GotKey(c) => m.(reader := Leaving(c, m.ring.tail))
      case Leaving(c, t) => m.(ring := m.ring.(tail := (t + 1) % SIZE), reader := Outside, delivered := m.delivered + [c])
  }

  /** The keys in the ring, oldest first. */
  ghost function Pending(m: Machine): seq<byte>
    requires |m.delivered| <= |m.accepted|
  {
    m.accepted[|m.delivered|..]
  }

  /** Slot i after the tail. */
  function Slot(tail: nat, i: nat): nat { if tail + i < SIZE then tail + i else tail + i - SIZE }

  ghost predicate Holds(r: Ring, keys: seq<byte>) {
    && GoodRing(r) && |keys| == Gap(r.head, r.tail) && |keys| <= SIZE - 1
    && forall i :: 0 <= i < |keys| ==> r.queue[Slot(r.tail, i)] == keys[i]
  }

  /** Delivered keys are a prefix of the accepted ones, and the ring holds exactly the rest. */
  ghost predicate Inv(m: Machine) {
    && m.delivered <= m.accepted && Holds(m.ring, Pending(m))
    && match m.reader
       case Outside => true
       case GotHead(h) => h < SIZE && Gap(h, m.ring.tail) <= |Pending(m)|
       case NotEmpty => |Pending(m)| > 0
       case GotTail(t) => |Pending(m)| > 0 && t == m.ring.tail
       case GotKey(c) => |Pending(m)| > 0 && c == Pending(m)[0]
       case Leaving(c, t) => |Pending(m)| > 0 && c == Pending(m)[0] && t == m.ring.tail
  }

  lemma {:induction false} PushHolds(r: Ring, keys: seq<byte>, c: byte)
    requires Holds(r, keys)
    ensures Full(r) <==> |keys| == SIZE - 1
    ensures !Full(r) ==> Holds(Push(r, c), keys + [c])
  {
    if !Full(r) {
      var next := Push(r, c);
      assert Slot(r.tail, |keys|) == r.head;
      forall i | 0 <= i < |keys + [c]|
        ensures next.queue[Slot(next.tail, i)] == (keys + [c])[i]
      {
        if i < |keys| { assert Slot(r.tail, i) != r.head; }
      }
    }
  }

  lemma {:induction false} PopHolds(r: Ring, keys: seq<byte>)
    requires Holds(r, keys) && |keys| > 0
    ensures r.queue[r.tail] == keys[0]
    ensures Holds(r.(tail := (r.tail + 1) % SIZE), keys[1..])
  {
    assert Slot(r.tail, 0) == r.tail;
    var next := r.(tail := (r.tail + 1) % SIZE);
    forall i | 0 <= i < |keys[1..]|
      ensures next.queue[Slot(next.tail, i)] == keys[1..][i]
    {
      assert Slot(next.tail, i) == Slot(r.tail, i + 1);
    }
  }

  lemma {:induction false} InterruptKeeps(m: Machine, c: byte)
    requires Inv(m)
    ensures Inv(Next(m, Interrupt(c)))
  {
    PushHolds(m.ring, Pending(m), c);
    var n := Next(m, Interrupt(c));
    if !Full(m.ring) {
      assert Pending(n) == Pending(m) + [c];
    }
  }

  lemma {:induction false} AdvanceKeeps(m: Machine)
    requires Inv(m)
    ensures Inv(Next(m, Advance))
  {
    if |Pending(m)| > 0 { PopHolds(m.ring, Pending(m)); }
    var n := Next(m, Advance);
    if m.reader.Leaving? {
      assert m.delivered + [m.accepted[|m.delivered|]] <= m.accepted;
      assert Pending(n) == Pending(m)[1..];
    }
  }

  lemma {:induction false} Start(queue: seq<byte>)
    requires |queue| == SIZE
    ensures Inv(Machine(Ring(queue, 0, 0), Outside, [], []))
  {
  }

  /** A schedule: interrupts and reader accesses in any order. */
  ghost function Run(m: Machine, events: seq<Event>): Machine
    requires Inv(m)
    decreases |events|
  {
    if |events| == 0 then m
    else
      KeepsInv(m, events[0]);
      Run(Next(m, events[0]), events[1..])
  }

  lemma {:induction false} KeepsInv(m: Machine, e: Event)
    requires Inv(m)
    ensures Inv(Next(m, e))
  {
    match e {
      case Interrupt(c) => InterruptKeeps(m, c);
      case Advance => AdvanceKeeps(m);
    }
  }

  lemma {:induction false} RunKeepsInv(m: Machine, events: seq<Event>)
    requires Inv(m)
    ensures Inv(Run(m, events))
    decreases |events|
  {
    if |events| > 0 {
      KeepsInv(m, events[0]);
      RunKeepsInv(Next(m, events[0]), events[1..]);
    }
  }

  /** Under every interleaving: delivered keys are a prefix of accepted keys, what was accepted and
      not delivered is in the ring in order, and at most 255 keys wait. */
  lemma {:induction false} EveryInterleaving(queue: seq<byte>, events: seq<Event>)
    requires |queue| == SIZE
    ensures Inv(Machine(Ring(queue, 0, 0), Outside, [], []))
    ensures var m := Run(Machine(Ring(queue, 0, 0), Outside, [], []), events);
      && Inv(m) && m.delivered <= m.accepted && m.accepted == m.delivered + Pending(m)
      && |Pending(m)| <= 255 && Holds(m.ring, Pending(m))
  {
    Start(queue);
    RunKeepsInv(Machine(Ring(queue, 0, 0), Outside, [], []), events);
    var m := Run(Machine(Ring(queue, 0, 0), Outside, [], []), events);
    assert m.accepted == m.delivered + m.accepted[|m.delivered|..];
  }

  function Advances(events: seq<Event>): nat {
    if |events| == 0 then 0 else (if events[0].Advance? then 1 else 0) + Advances(events[1..])
  }

  /** Accesses the reader still has to make before it returns a key; zero when it is not about to. */
  function Left(m: Machine): nat {
    match m.reader
    case Outside => 0
    case GotHead(h) => if h == m.ring.tail then 0 else 5
    case NotEmpty => 4
    case GotTail(_) => 3
    case GotKey(_) => 2
    case Leaving(_, _) => 1
  }

  /** Once the reader has seen a key, it returns the oldest one, whatever interrupts come between. */
  lemma {:induction false} GetDelivers(m: Machine, events: seq<Event>)
    requires Inv(m) && Left(m) > 0 && Advances(events) == Left(m)
    ensures |Pending(m)| > 0 && Run(m, events).delivered == m.delivered + [Pending(m)[0]]
    ensures Run(m, events).reader == Outside
    decreases |events|
  {
    KeepsInv(m, events[0]);
    var n := Next(m, events[0]);
    if Left(n) > 0 {
      GetDelivers(n, events[1..]);
      assert Pending(n)[0] == Pending(m)[0] by { FirstStays(m, events[0]); }
    } else {
      NoMoreAdvances(n, events[1..]);
    }
  }

  lemma {:induction false} FirstStays(m: Machine, e: Event)
    requires Inv(m) && Left(m) > 0 && Left(Next(m, e)) > 0
    ensures Inv(Next(m, e)) && |Pending(m)| > 0 && |Pending(Next(m, e))| > 0
    ensures Pending(Next(m, e))[0] == Pending(m)[0] && Next(m, e).delivered == m.delivered
  {
    KeepsInv(m, e);
  }

  lemma {:induction false} NoMoreAdvances(m: Machine, events: seq<Event>)
    requires Inv(m) && Advances(events) == 0
    ensures Run(m, events).delivered == m.delivered && Run(m, events).reader == m.reader
    decreases |events|
  {
    if |events| > 0 {
      KeepsInv(m, events[0]);
      NoMoreAdvances(Next(m, events[0]), events[1..]);
    }
  }

  /** The reader reports an empty ring exactly when the ring was empty as it read the head. */
  lemma {:induction false} EmptyMeansEmpty(m: Machine)
    requires Inv(m) && m.reader == Outside
    ensures Left(Next(m, Advance)) == 0 <==> Pending(m) == []
  {
  }

  /** An accepted key is dropped only when 255 keys are waiting. */
  lemma {:induction false} DroppedOnlyWhenFull(m: Machine, c: byte)
    requires Inv(m)
    ensures Next(m, Interrupt(c)).accepted == if |Pending(m)| == 255 then m.accepted else m.accepted + [c]
  {
    PushHolds(m.ring, Pending(m), c);
  }

  // ---------------------------------------------------------------- the driver

  class Driver {
    const queue: array<byte>
    var head: nat
    var tail: nat

    ghost predicate Valid()
      reads this
    {
      queue.Length == SIZE && head < SIZE && tail < SIZE
    }

    ghost function View(): Ring
      requires Valid()
      reads this, queue
    {
      Ring(queue[..], head, tail)
    }

    constructor ()
      ensures Valid() && fresh(queue) && head == 0 && tail == 0
    {
      queue := new byte[SIZE](_ => 0);
      head, tail := 0, 0;
    }

    /** `push_key`. */
    method PushKey(c: byte)
      requires Valid()
      modifies this`head, queue
      ensures Valid() && View() == Push(old(View()), c)
    {
      var next := (head + 1) % SIZE;
      if next == tail {
        return;
      }
      queue[head] := c;
      head := next;
    }

    /** `qizo_kbd_get` run without interruption: the oldest key, or -1. */
    method Get(ghost keys: seq<byte>) returns (c: int)
      requires Valid() && Holds(View(), keys)
      modifies this`tail
      ensures Valid()
      ensures keys == [] ==> c == -1 && View() == old(View())
      ensures keys != [] ==> c == keys[0] && Holds(View(), keys[1..])
    {
      if head == tail {
        return -1;
      }
      PopHolds(View(), keys);
      c := queue[tail];
      tail := (tail + 1) % SIZE;
    }
  }
}
