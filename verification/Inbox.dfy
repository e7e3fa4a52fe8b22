/** socket.rs: the byte-budgeted inbox between the reader thread and its caller, under every
    interleaving of their atomic steps. */
module Inbox {
  import opened Machine

  const MAX_INBOX: nat := 1024
  const MAX_INBOX_BYTES: nat := 16 * 1024 * 1024

  /** What the reader hands its caller: a message with its payload bytes, or the error that
      stopped it, which holds none. */
  datatype Inbound<M> = Message(msg: M, payload: nat) | Failure
  {
    function Bytes(): nat { if Message? then payload else 0 }
  }

  /** Where the reader thread stands: at the socket, waiting for room, with its bytes reserved
      and about to queue the message, about to queue its last error, or gone. */
  datatype Reader<M> = Reading | Waiting(next: Inbound<M>) | Reserved(next: Inbound<M>) | Failing | Gone

  /** `taken` is what the caller has taken out of the channel and not yet released. `got` and
      `heard` record what the caller was handed, and what the reader had to hand over. */
  datatype Net<M> = Net(held: int, channel: seq<Inbound<M>>, reader: Reader<M>, taken: Option<Inbound<M>>,
                        got: seq<Inbound<M>>, heard: seq<Inbound<M>>)
  {
    predicate HasRoom(bytes: nat) { !(held > 0 && held + bytes > MAX_INBOX_BYTES) }
  }

  function Fresh<M>(): Net<M> { Net(0, [], Reading, None, [], []) }

  datatype Step<M> = Read(msg: M, payload: nat) | Break | Close | Reserve | Send | Take | Release

  predicate Enabled<M>(n: Net<M>, step: Step<M>) {
    match step
    case Read(_, _) => n.reader.Reading?
    case Break => n.reader.Reading?
    case Close => n.reader.Reading?
    case Reserve => n.reader.Waiting? && n.HasRoom(n.reader.next.Bytes())
    case Send => (n.reader.Reserved? || n.reader.Failing?) && |n.channel| < MAX_INBOX
    case Take => n.taken == None && n.channel != []
    case Release => n.taken.Some?
  }

  function Do<M>(n: Net<M>, step: Step<M>): Net<M>
    requires Enabled(n, step)
  {
    match step
    case Read(msg, payload) => n.(reader := Waiting(Message(msg, payload)), heard := n.heard + [Message(msg, payload)])
    case Break => n.(reader := Failing, heard := n.heard + [Failure])
    case Close => n.(reader := Gone)
    case Reserve => n.(held := n.held + n.reader.next.Bytes(), reader := Reserved(n.reader.next))
    case Send =>
      if n.reader.Failing? then n.(channel := n.channel + [Failure], reader := Gone)
      else n.(channel := n.channel + [n.reader.next], reader := Reading)
    case Take => n.(taken := Some(n.channel[0]), channel := n.channel[1..])
    case Release => n.(held := n.held - n.taken.value.Bytes(), taken := None, got := n.got + [n.taken.value])
  }

  /** The states a run of enabled steps leads to. */
  ghost predicate Reaches<M>(n: Net<M>, steps: seq<Step<M>>, m: Net<M>)
    decreases |steps|
  {
    if steps == [] then m == n else Enabled(n, steps[0]) && Reaches(Do(n, steps[0]), steps[1..], m)
  }

  // ---------- the steps as the two threads take them ----------

  class Shared<M(==)> {
    var held: int
    var channel: seq<Inbound<M>>
    var reader: Reader<M>
    var taken: Option<Inbound<M>>
    ghost var got: seq<Inbound<M>>
    ghost var heard: seq<Inbound<M>>

    ghost function Now(): Net<M> reads this { Net(held, channel, reader, taken, got, heard) }

    constructor ()
      ensures Now() == Fresh<M>()
    {
      held, channel, reader, taken, got, heard := 0, [], Reading, None, [], [];
    }

    /** One look at the room while waiting for it; the bytes are reserved once there is some. */
    method TryReserve() returns (reserved: bool)
      requires reader.Waiting?
      modifies this
      ensures reserved <==> Enabled(old(Now()), Reserve)
      ensures Now() == if reserved then Do(old(Now()), Reserve) else old(Now())
    {
      var bytes := reader.next.Bytes();
      if held > 0 && held + bytes > MAX_INBOX_BYTES {
        return false;
      }
      held := held + bytes;
      reader := Reserved(reader.next);
      return true;
    }

    method Queue()
      requires Enabled(Now(), Send)
      modifies this
      ensures Now() == Do(old(Now()), Send)
    {
      if reader.Failing? {
        channel, reader := channel + [Failure], Gone;
      } else {
        channel, reader := channel + [reader.next], Reading;
      }
    }

    method TakeOne()
      requires Enabled(Now(), Take)
      modifies this
      ensures Now() == Do(old(Now()), Take)
    {
      taken, channel := Some(channel[0]), channel[1..];
    }

    /** The bytes given back never exceed those held. */
    method GiveBack() returns (next: Inbound<M>)
      requires Inv(Now()) && Enabled(Now(), Release)
      modifies this
      ensures Now() == Do(old(Now()), Release) && held >= 0 && Some(next) == old(taken)
    {
      next := taken.value;
      if next.Bytes() > 0 {
        held := held - next.Bytes();
      }
      got := got + [next];
      taken := None;
      StepKeeps(old(Now()), Release);
    }
  }

  // ---------- what every interleaving keeps ----------

  function Total<M>(items: seq<Inbound<M>>): nat {
    if items == [] then 0 else Total(items[..|items| - 1]) + items[|items| - 1].Bytes()
  }

  function ReservedOf<M>(n: Net<M>): seq<Inbound<M>> { if n.reader.Reserved? then [n.reader.next] else [] }

  function TakenOf<M>(n: Net<M>): seq<Inbound<M>> { if n.taken.Some? then [n.taken.value] else [] }

  function DueOf<M>(n: Net<M>): seq<Inbound<M>> {
    if n.reader.Waiting? then [n.reader.next] else if n.reader.Failing? then [Failure] else []
  }

  /** Everything reserved and not yet released, oldest first. */
  function Outstanding<M>(n: Net<M>): seq<Inbound<M>> { TakenOf(n) + n.channel + ReservedOf(n) }

  /** The bytes held are those outstanding, all told; and everything the reader had to hand over
      was handed to the caller, is on its way in that order, or is the one it holds at hand. */
  ghost predicate Inv<M>(n: Net<M>) {
    n.held == Total(Outstanding(n)) && |n.channel| <= MAX_INBOX && n.got + Outstanding(n) + DueOf(n) == n.heard &&
    ((n.reader.Waiting? || n.reader.Reserved?) ==> n.reader.next.Message?)
  }

  lemma {:induction false} TotalJoins<M>(a: seq<Inbound<M>>, b: seq<Inbound<M>>)
    ensures Total(a + b) == Total(a) + Total(b)
  {
    if b == [] {
      assert a + b == a;
    } else {
      assert (a + b)[..|a + b| - 1] == a + b[..|b| - 1];
      TotalJoins(a, b[..|b| - 1]);
    }
  }

  lemma TotalOne<M>(item: Inbound<M>)
    ensures Total([item]) == item.Bytes()
  {
    assert [item][..0] == [];
  }

  /** How a step changes what is outstanding. */
  lemma OutstandingMoves<M>(n: Net<M>, step: Step<M>)
    requires Enabled(n, step)
    ensures var m := Do(n, step);
            match step
            case Reserve => Outstanding(m) == Outstanding(n) + [n.reader.next]
            case Send => Outstanding(m) == if n.reader.Failing? then Outstanding(n) + [Failure] else Outstanding(n)
            case Release => Outstanding(n) == [n.taken.value] + Outstanding(m)
            case _ => Outstanding(m) == Outstanding(n)
  {
    var m := Do(n, step);
    match step
    case Send => assert m.channel == n.channel + if n.reader.Failing? then [Failure] else [n.reader.next];
    case Take => assert [n.channel[0]] + m.channel == n.channel;
    case _ =>
  }

  lemma BytesKept<M>(n: Net<M>, step: Step<M>)
    requires Inv(n) && Enabled(n, step)
    ensures Do(n, step).held == Total(Outstanding(Do(n, step)))
  {
    OutstandingMoves(n, step);
    hide Outstanding, Total;
    match step
    case Reserve =>
      TotalJoins(Outstanding(n), [n.reader.next]);
      TotalOne(n.reader.next);
    case Send =>
      TotalJoins(Outstanding(n), [Failure]);
      TotalOne(Inbound<M>.Failure);
    case Release =>
      TotalJoins([n.taken.value], Outstanding(Do(n, step)));
      TotalOne(n.taken.value);
    case _ =>
  }

  lemma Regrouped<M>(a: seq<Inbound<M>>, b: seq<Inbound<M>>, c: seq<Inbound<M>>)
    ensures a + (b + c) == a + b + c && a + (b + c) + [] == a + b + c
  {
  }

  lemma FlowKept<M>(n: Net<M>, step: Step<M>)
    requires Enabled(n, step) && n.got + Outstanding(n) + DueOf(n) == n.heard
    ensures var m := Do(n, step); m.got + Outstanding(m) + DueOf(m) == m.heard
  {
    OutstandingMoves(n, step);
    hide Outstanding;
    var m := Do(n, step);
    match step
    case Reserve => Regrouped(n.got, Outstanding(n), [n.reader.next]);
    case Send => Regrouped(n.got, Outstanding(n), [Failure]);
    case Release => Regrouped(n.got, [n.taken.value], Outstanding(m));
    case Read(msg, payload) => Regrouped(n.got, Outstanding(n), [Message(msg, payload)]);
    case _ =>
  }

  lemma StepKeeps<M>(n: Net<M>, step: Step<M>)
    requires Inv(n) && Enabled(n, step)
    ensures Inv(Do(n, step)) && Do(n, step).held >= 0
  {
    BytesKept(n, step);
    FlowKept(n, step);
    hide Outstanding, Total, DueOf;
  }

  /** Whatever the interleaving, the bytes held are exactly those reserved and not yet released,
      and nothing read is lost, repeated or reordered. */
  lemma {:induction false} EveryInterleaving<M>(n: Net<M>, steps: seq<Step<M>>, m: Net<M>)
    requires Inv(n) && Reaches(n, steps, m)
    ensures Inv(m)
    decreases |steps|
  {
    if steps != [] {
      StepKeeps(n, steps[0]);
      EveryInterleaving(Do(n, steps[0]), steps[1..], m);
    }
  }

  /** The bytes held stay within the budget when every payload read does; a lone larger one is
      the only excess there can be. */
  ghost predicate Budgeted<M>(n: Net<M>, largest: nat) {
    0 <= n.held <= Max(MAX_INBOX_BYTES, largest) && (n.reader.Waiting? ==> n.reader.next.Bytes() <= largest)
  }

  lemma {:induction false} WithinBudget<M>(n: Net<M>, steps: seq<Step<M>>, m: Net<M>, largest: nat)
    requires Inv(n) && Budgeted(n, largest) && Reaches(n, steps, m)
    requires forall i :: 0 <= i < |steps| && steps[i].Read? ==> steps[i].payload <= largest
    ensures Budgeted(m, largest)
    decreases |steps|
  {
    if steps != [] {
      StepKeeps(n, steps[0]);
      WithinBudget(Do(n, steps[0]), steps[1..], m, largest);
    }
  }

  /** The payload bytes of the messages among items; an error holds none. */
  function Payloads<M>(items: seq<Inbound<M>>): nat {
    if items == [] then 0
    else
      Payloads(items[1..]) +
      match items[0]
      case Message(_, payload) => payload
      case Failure => 0
  }

  lemma {:induction false} TotalIsPayloads<M>(items: seq<Inbound<M>>)
    ensures Total(items) == Payloads(items)
  {
    if items != [] {
      TotalIsPayloads(items[1..]);
      TotalOne(items[0]);
      TotalJoins([items[0]], items[1..]);
      assert items == [items[0]] + items[1..];
    }
  }

  /** From the start, under every interleaving and with every payload within the budget, the bytes
      held are the payloads outstanding, never leave the budget of 16 MiB and never sink below zero,
      and no more than 1024 messages wait. */
  lemma EveryNet<M>(steps: seq<Step<M>>, m: Net<M>)
    requires Reaches(Fresh<M>(), steps, m)
    requires forall i :: 0 <= i < |steps| && steps[i].Read? ==> steps[i].payload <= 0x100_0000
    ensures Inv(m) && 0 <= m.held <= 0x100_0000 && |m.channel| <= 0x400
    ensures m.held == Payloads(TakenOf(m)) + Payloads(m.channel) + Payloads(ReservedOf(m))
  {
    assert Outstanding(Fresh<M>()) == [];
    EveryInterleaving(Fresh<M>(), steps, m);
    WithinBudget(Fresh<M>(), steps, m, MAX_INBOX_BYTES);
    TotalJoins(TakenOf(m) + m.channel, ReservedOf(m));
    TotalJoins(TakenOf(m), m.channel);
    TotalIsPayloads(TakenOf(m));
    TotalIsPayloads(m.channel);
    TotalIsPayloads(ReservedOf(m));
  }

  /** After every run a waiting reader may go on exactly when nothing is outstanding but errors and
      empty payloads, or its message fits the budget beside what is. */
  lemma WaitsWhileFull<M>(n: Net<M>)
    requires Inv(n) && n.reader.Waiting?
    ensures Enabled(n, Reserve) <==>
              Payloads(Outstanding(n)) == 0 || Payloads(Outstanding(n)) + n.reader.next.payload <= 0x100_0000
  {
    TotalIsPayloads(Outstanding(n));
  }

  // ---------- progress ----------

  /** What is left to do of all the reader has read. */
  function Work<M>(n: Net<M>): nat {
    (match n.reader
     case Waiting(_) => 4
     case Reserved(_) => 3
     case Failing => 3
     case _ => 0) + 2 * |n.channel| + if n.taken.Some? then 1 else 0
  }

  /** A step of either thread that reads nothing new. */
  predicate Inner<M>(step: Step<M>) { step.Reserve? || step.Send? || step.Take? || step.Release? }

  /** A waiting reader goes on at the latest when the channel is drained and all taken is released. */
  lemma WaitEnds<M>(n: Net<M>)
    requires Inv(n) && n.reader.Waiting? && n.channel == [] && n.taken == None
    ensures Enabled(n, Reserve)
  {
    assert Outstanding(n) == [];
  }

  /** The two threads never wait for each other: with anything left to do, one of them can step. */
  lemma NeverStuck<M>(n: Net<M>)
    requires Inv(n) && Work(n) > 0
    ensures Enabled(n, Reserve) || Enabled(n, Send) || Enabled(n, Take) || Enabled(n, Release)
  {
    if n.reader.Waiting? && n.channel == [] && n.taken == None {
      WaitEnds(n);
    }
  }

  /** Every step but a read brings what was read nearer: however they interleave, no more of them
      follow one another than there is work, and where none can follow the caller has got
      everything and no byte is held. */
  lemma {:induction false} Drains<M>(n: Net<M>, steps: seq<Step<M>>, m: Net<M>)
    requires Inv(n) && Reaches(n, steps, m) && forall i :: 0 <= i < |steps| ==> Inner(steps[i])
    ensures |steps| + Work(m) <= Work(n) && m.heard == n.heard
    ensures !(exists step: Step<M> :: Inner(step) && Enabled(m, step)) ==> m.got == n.heard && m.held == 0
    decreases |steps|
  {
    if steps != [] {
      StepKeeps(n, steps[0]);
      Drains(Do(n, steps[0]), steps[1..], m);
    } else if Work(n) > 0 {
      NeverStuck(n);
      assert Inner(Step<M>.Reserve) && Inner(Step<M>.Send) && Inner(Step<M>.Take) && Inner(Step<M>.Release);
    } else {
      assert Outstanding(n) + DueOf(n) == [];
    }
  }
}
