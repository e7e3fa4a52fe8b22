/** redial.rs: what a client keeps to say again, and how often it dials after a break. */
module Redial {
  import opened Machine

  const MAX_UNSENT: nat := 64

  datatype Role = Player | Bot | Spectator

  /** What a client says; payloads stand for the rest of a message. */
  datatype ClientMsg =
    | Hello(role: Role, key: Option<nat>, rest: nat)
    | Catalogue(rest: nat)
    | PickHero(rest: nat)
    | SetReady(rest: nat)
    | ViewAs(rest: nat)
    | Compress(rest: nat)
    | Order(sequence: u32, rest: nat)
    | Ack(tick: u32)
    | Pong
    | Probe(rest: nat)
    | LeaveGame
    | Say(rest: nat)

  datatype ServerMsg = Welcome | SeatHeld | Refused | MatchOver | WireMismatch | Other

  /** The kinds a fresh connection is told again. */
  datatype Kind = AHello | ACatalogue | ACompress | APick | AReady | TheEyes

  function KindOf(msg: ClientMsg): Option<Kind> {
    match msg
    case Hello(_, _, _) => Some(AHello)
    case Catalogue(_) => Some(ACatalogue)
    case Compress(_) => Some(ACompress)
    case PickHero(_) => Some(APick)
    case SetReady(_) => Some(AReady)
    case ViewAs(_) => Some(TheEyes)
    case _ => None
  }

  function Listed<T>(kept: Option<T>): seq<T> { if kept.Some? then [kept.value] else [] }

  predicate ForSeat(msg: ClientMsg) { msg.Hello? && msg.role != Spectator }

  /** What becomes of one attempt: no connection, one the greeting fails on, one that cannot be
      used once greeted, or one adopted. */
  datatype Attempt = DialFails | GreetFails | SplitFails | Adopted

  /** What happens on a client's connections, as a trace tells it. */
  datatype Event =
    | Said(msg: ClientMsg)
    | Lost(lost: ClientMsg)
    | Heard(heard: ServerMsg)
    | Dialed
    | Greeted(frames: seq<ClientMsg>)

  datatype Memory = Memory(key: Option<nat>, hello: Option<ClientMsg>, catalogue: Option<ClientMsg>,
                           pick: Option<ClientMsg>, ready: Option<ClientMsg>, eyes: Option<ClientMsg>,
                           compress: Option<ClientMsg>, unsent: seq<ClientMsg>, finished: bool, rejoining: bool,
                           spent: nat)
  {
    function Keyed(msg: ClientMsg): ClientMsg { if ForSeat(msg) && msg.key == None then msg.(key := key) else msg }

    /** Notes a message as it goes out. */
    function Outgoing(msg: ClientMsg): Memory {
      var out := Keyed(msg);
      var m := this.(rejoining := rejoining || ForSeat(msg));
      match KindOf(out)
      case Some(AHello) => m.(hello := Some(out))
      case Some(ACatalogue) => m.(catalogue := Some(out))
      case Some(ACompress) => m.(compress := Some(out))
      case Some(APick) => m.(pick := Some(out))
      case Some(AReady) => m.(ready := Some(out))
      case Some(TheEyes) => m.(eyes := Some(out))
      case None => m
    }

    function Unsent(msg: ClientMsg): Memory {
      if !msg.Order? then this
      else this.(unsent := (if |unsent| == MAX_UNSENT then unsent[1..] else unsent) + [msg])
    }

    predicate HeldOff(msg: ServerMsg) { msg.SeatHeld? && rejoining }

    function Hear(msg: ServerMsg): Memory {
      if msg.Welcome? then this.(rejoining := false, spent := 0)
      else if HeldOff(msg) || msg.Other? then this
      else this.(finished := true)
    }

    predicate Wanted() { hello.Some? && !finished }

    function Greeting(): seq<ClientMsg> {
      Listed(hello) + Listed(catalogue) + Listed(compress) + Listed(pick) + Listed(ready) + Listed(eyes) + unsent
    }

    function AfterGreeting(): Memory { this.(unsent := [], rejoining := true) }

    /** All attempts left after a break, `spent` of them used before and nothing else happening
        meanwhile: the memory, what happened, and whether one was adopted. */
    function Tries(attempts: nat, spent: nat, luck: nat -> Attempt): (Memory, seq<Event>, bool)
      decreases attempts - spent
    {
      if spent >= attempts then (this.(spent := spent), [], false)
      else
        match luck(spent)
        case Adopted => (AfterGreeting().(spent := spent + 1), [Dialed, Greeted(Greeting())], true)
        case SplitFails =>
          var (n, events, adopted) := AfterGreeting().Tries(attempts, spent + 1, luck);
          (n, [Dialed, Greeted(Greeting())] + events, adopted)
        case _ =>
          var (n, events, adopted) := Tries(attempts, spent + 1, luck);
          (n, [Dialed] + events, adopted)
    }
  }

  function Unspoken(key: Option<nat>): Memory { Memory(key, None, None, None, None, None, None, [], false, false, 0) }

  /** Whether a broken connection is dialed again; a corrupt stream is not. */
  predicate MayRedial(attempts: nat, m: Memory, corrupt: bool) { attempts > 0 && m.Wanted() && !corrupt }

  // ---------- the memory as it is kept ----------

  class Rejoin {
    const key: Option<nat>
    var hello: Option<ClientMsg>
    var catalogue: Option<ClientMsg>
    var pick: Option<ClientMsg>
    var ready: Option<ClientMsg>
    var eyes: Option<ClientMsg>
    var compress: Option<ClientMsg>
    var unsent: seq<ClientMsg>
    var finished: bool
    var rejoining: bool
    var spent: nat

    ghost function Now(): Memory reads this {
      Memory(key, hello, catalogue, pick, ready, eyes, compress, unsent, finished, rejoining, spent)
    }

    /** `key` is the one drawn, where the system had one to give. */
    constructor (key: Option<nat>)
      ensures Now() == Unspoken(key)
    {
      this.key := key;
      hello, catalogue, pick, ready, eyes, compress := None, None, None, None, None, None;
      unsent, finished, rejoining, spent := [], false, false, 0;
    }

    method Outgoing(msg: ClientMsg) returns (out: ClientMsg)
      modifies this
      ensures out == old(Now()).Keyed(msg) && Now() == old(Now()).Outgoing(msg)
    {
      out := msg;
      if msg.Hello? && (msg.role == Player || msg.role == Bot) {
        if msg.key == None {
          out := msg.(key := key);
        }
        rejoining := true;
      }
      match out {
        case Hello(_, _, _) => hello := Some(out);
        case Catalogue(_) => catalogue := Some(out);
        case PickHero(_) => pick := Some(out);
        case SetReady(_) => ready := Some(out);
        case ViewAs(_) => eyes := Some(out);
        case Compress(_) => compress := Some(out);
        case _ =>
      }
    }

    method Unsent(msg: ClientMsg)
      modifies this`unsent
      ensures Now() == old(Now()).Unsent(msg)
    {
      if msg.Order? {
        if |unsent| == MAX_UNSENT {
          unsent := unsent[1..];
        }
        unsent := unsent + [msg];
      }
    }

    method Heard(msg: ServerMsg) returns (held: bool)
      modifies this
      ensures Now() == old(Now()).Hear(msg) && held == old(Now()).HeldOff(msg)
    {
      match msg {
        case Welcome =>
          rejoining, spent := false, 0;
        case SeatHeld =>
          if rejoining {
            return true;
          }
          finished := true;
        case Other =>
        case _ =>
          finished := true;
      }
      return false;
    }

    /** `goes` says whether the frames could be sent. */
    method Greet(goes: bool) returns (frames: seq<ClientMsg>)
      modifies this
      ensures frames == old(Now()).Greeting()
      ensures Now() == if goes then old(Now()).AfterGreeting() else old(Now())
    {
      frames := Listed(hello) + Listed(catalogue) + Listed(compress) + Listed(pick) + Listed(ready) + Listed(eyes) +
        unsent;
      if goes {
        unsent := [];
        rejoining := true;
      }
    }

    /** Dials until a connection is adopted or the attempts of this break are spent. */
    method Redial(attempts: nat, luck: nat -> Attempt) returns (adopted: bool, ghost events: seq<Event>)
      modifies this
      ensures (Now(), events, adopted) == old(Now()).Tries(attempts, old(spent), luck)
    {
      hide Memory.Greeting;
      adopted, events := false, [];
      var tried: nat := spent;
      ghost var was := Now();
      ghost var all := was.Tries(attempts, tried, luck);
      assert events + all.1 == all.1;
      while tried < attempts && !adopted
        invariant adopted ==> all == (Now().(spent := tried), events, true)
        invariant !adopted ==> Ahead(all, events, Now().Tries(attempts, tried, luck))
        decreases if adopted then 0 else 1, attempts - tried
      {
        ghost var before := Now();
        ghost var rest := before.Tries(attempts, tried, luck);
        var attempt := luck(tried);
        tried := tried + 1;
        ghost var told := [Dialed];
        if attempt != DialFails {
          var frames := Greet(attempt != GreetFails);
          if attempt != GreetFails {
            told := [Dialed, Greeted(before.Greeting())];
          }
          adopted := attempt == Adopted;
        }
        if !adopted {
          StepAhead(all, events, rest, told, Now().Tries(attempts, tried, luck));
        }
        events := events + told;
      }
      assert !adopted ==> events + [] == events;
      spent := tried;
    }
  }

  /** A whole round is what happened of it so far, and then the rest. */
  ghost predicate Ahead(all: (Memory, seq<Event>, bool), events: seq<Event>, rest: (Memory, seq<Event>, bool)) {
    all == (rest.0, events + rest.1, rest.2)
  }

  lemma StepAhead(all: (Memory, seq<Event>, bool), events: seq<Event>, rest: (Memory, seq<Event>, bool),
                  told: seq<Event>, later: (Memory, seq<Event>, bool))
    requires Ahead(all, events, rest) && rest == (later.0, told + later.1, later.2)
    ensures Ahead(all, events + told, later)
  {
    assert events + (told + later.1) == (events + told) + later.1;
  }

  // ---------- what a trace says ----------

  /** The latest message of a kind said. */
  function Latest(trace: seq<Event>, kind: Kind): Option<ClientMsg> {
    if trace == [] then None
    else
      var last := trace[|trace| - 1];
      if last.Said? && KindOf(last.msg) == Some(kind) then Some(last.msg) else Latest(trace[..|trace| - 1], kind)
  }

  /** The orders whose sending failed since the last greeting that went out. */
  function FailedSince(trace: seq<Event>): seq<ClientMsg> {
    if trace == [] then []
    else
      match trace[|trace| - 1]
      case Greeted(_) => []
      case Lost(msg) => FailedSince(trace[..|trace| - 1]) + if msg.Order? then [msg] else []
      case _ => FailedSince(trace[..|trace| - 1])
  }

  function Newest(orders: seq<ClientMsg>): seq<ClientMsg> {
    if |orders| > MAX_UNSENT then orders[|orders| - MAX_UNSENT..] else orders
  }

  /** The dials since the last welcome. */
  function DialsSince(trace: seq<Event>): nat {
    if trace == [] then 0
    else
      match trace[|trace| - 1]
      case Heard(msg) => if msg.Welcome? then 0 else DialsSince(trace[..|trace| - 1])
      case Dialed => DialsSince(trace[..|trace| - 1]) + 1
      case _ => DialsSince(trace[..|trace| - 1])
  }

  /** Whether a seat was asked for, or asked for again, and not yet welcomed. */
  predicate Asking(trace: seq<Event>) {
    trace != [] &&
    match trace[|trace| - 1]
    case Said(msg) => ForSeat(msg) || Asking(trace[..|trace| - 1])
    case Greeted(_) => true
    case Heard(msg) => !msg.Welcome? && Asking(trace[..|trace| - 1])
    case _ => Asking(trace[..|trace| - 1])
  }

  /** Whether the server has ended it for good: not by holding the seat for one who asks. */
  predicate Ended(trace: seq<Event>) {
    trace != [] &&
    (Ended(trace[..|trace| - 1]) ||
     match trace[|trace| - 1]
     case Heard(msg) =>
       msg.Refused? || msg.MatchOver? || msg.WireMismatch? || (msg.SeatHeld? && !Asking(trace[..|trace| - 1]))
     case _ => false)
  }

  /** The latest of each kept kind, in the order a greeting says them. */
  function Keepsakes(trace: seq<Event>): seq<ClientMsg> {
    Listed(Latest(trace, AHello)) + Listed(Latest(trace, ACatalogue)) + Listed(Latest(trace, ACompress)) +
    Listed(Latest(trace, APick)) + Listed(Latest(trace, AReady)) + Listed(Latest(trace, TheEyes))
  }

  /** What a greeting must say after a trace. */
  function Due(trace: seq<Event>): seq<ClientMsg> { Keepsakes(trace) + Newest(FailedSince(trace)) }

  /** Every greeting says what is due, and every dial is wanted, not after the end, and one of the
      attempts there are between two welcomes. */
  ghost predicate Sound(trace: seq<Event>, attempts: nat) {
    trace == [] ||
    (var before := trace[..|trace| - 1];
     Sound(before, attempts) &&
     match trace[|trace| - 1]
     case Greeted(frames) => frames == Due(before)
     case Dialed => !Ended(before) && Latest(before, AHello).Some? && DialsSince(before) < attempts
     case _ => true)
  }

  // ---------- every run ----------

  /** The memory is what the trace says. */
  ghost predicate Remembers(m: Memory, trace: seq<Event>) {
    m.hello == Latest(trace, AHello) && m.catalogue == Latest(trace, ACatalogue) &&
      m.compress == Latest(trace, ACompress) &&
    m.pick == Latest(trace, APick) && m.ready == Latest(trace, AReady) && m.eyes == Latest(trace, TheEyes) &&
    m.unsent == Newest(FailedSince(trace)) && m.finished == Ended(trace) && m.rejoining == Asking(trace)
  }

  lemma Snoc(trace: seq<Event>, event: Event)
    ensures (trace + [event])[..|trace|] == trace
  {
  }

  lemma LatestSnoc(trace: seq<Event>, event: Event, kind: Kind)
    ensures Latest(trace + [event], kind) ==
            if event.Said? && KindOf(event.msg) == Some(kind) then Some(event.msg) else Latest(trace, kind)
  {
    Snoc(trace, event);
  }

  lemma SaidSnoc(trace: seq<Event>, msg: ClientMsg)
    ensures FailedSince(trace + [Said(msg)]) == FailedSince(trace) && Ended(trace + [Said(msg)]) == Ended(trace)
    ensures Asking(trace + [Said(msg)]) == (ForSeat(msg) || Asking(trace))
  {
    Snoc(trace, Said(msg));
  }

  lemma SaidRemembered(m: Memory, trace: seq<Event>, msg: ClientMsg)
    requires Remembers(m, trace)
    ensures Remembers(m.Outgoing(msg), trace + [Said(m.Keyed(msg))])
  {
    hide Latest, FailedSince, Ended, Asking, Newest;
    var out := m.Keyed(msg);
    SaidSnoc(trace, out);
    LatestSnoc(trace, Said(out), AHello);
    LatestSnoc(trace, Said(out), ACatalogue);
    LatestSnoc(trace, Said(out), ACompress);
    LatestSnoc(trace, Said(out), APick);
    LatestSnoc(trace, Said(out), AReady);
    LatestSnoc(trace, Said(out), TheEyes);
    assert ForSeat(out) == ForSeat(msg);
  }

  lemma LostRemembered(m: Memory, trace: seq<Event>, msg: ClientMsg)
    requires Remembers(m, trace)
    ensures Remembers(m.Unsent(msg), trace + [Lost(msg)])
  {
    Snoc(trace, Lost(msg));
    var failed := FailedSince(trace);
    if msg.Order? {
      assert Newest(failed + [msg]) == (if |Newest(failed)| == MAX_UNSENT then Newest(failed)[1..]
        else Newest(failed)) + [msg];
    } else {
      assert failed + [] == failed;
    }
  }

  lemma HeardRemembered(m: Memory, trace: seq<Event>, msg: ServerMsg)
    requires Remembers(m, trace)
    ensures Remembers(m.Hear(msg), trace + [Heard(msg)])
  {
    Snoc(trace, Heard(msg));
  }

  lemma HeardCounted(m: Memory, trace: seq<Event>, msg: ServerMsg)
    requires m.spent == DialsSince(trace)
    ensures m.Hear(msg).spent == DialsSince(trace + [Heard(msg)])
  {
    Snoc(trace, Heard(msg));
  }

  lemma DialRemembered(m: Memory, trace: seq<Event>)
    requires Remembers(m, trace)
    ensures Remembers(m, trace + [Dialed]) && DialsSince(trace + [Dialed]) == DialsSince(trace) + 1
  {
    Snoc(trace, Dialed);
  }

  lemma GreetingRemembered(m: Memory, trace: seq<Event>)
    requires Remembers(m, trace)
    ensures m.Greeting() == Due(trace)
    ensures Remembers(m.AfterGreeting(), trace + [Greeted(m.Greeting())])
  {
    Snoc(trace, Greeted(m.Greeting()));
  }

  /** Sending counts no dial and keeps a wanted connection wanted. */
  lemma SendingLeaves(m: Memory, trace: seq<Event>, msg: ClientMsg)
    ensures DialsSince(trace + [Said(m.Keyed(msg))]) == DialsSince(trace) &&
            DialsSince(trace + [Lost(msg)]) == DialsSince(trace)
    ensures m.Outgoing(msg).spent == m.spent && m.Unsent(msg).spent == m.spent
    ensures m.Wanted() ==> m.Outgoing(msg).Wanted()
    ensures m.Unsent(msg).Wanted() == m.Wanted()
  {
    Snoc(trace, Said(m.Keyed(msg)));
    Snoc(trace, Lost(msg));
  }

  lemma SoundSnoc(trace: seq<Event>, attempts: nat, event: Event)
    requires Sound(trace, attempts)
    requires event.Greeted? ==> event.frames == Due(trace)
    requires event.Dialed? ==> !Ended(trace) && Latest(trace, AHello).Some? && DialsSince(trace) < attempts
    ensures Sound(trace + [event], attempts)
  {
    Snoc(trace, event);
  }

  // ---------- the steps of the two threads ----------

  /** Where the reader stands: at its connection, between two attempts of a break, or in one; it
      counts the attempts on its own until the round is over. */
  datatype Reader = Listening | Between(tried: nat) | Opening(tried: nat)

  /** A transport at one moment. The memory changes under its lock, so each change is one step. */
  datatype Transport = Transport(memory: Memory, reader: Reader)
  {
    function Spent(): nat { if reader.Listening? then memory.spent else reader.tried }
  }

  /** The caller may send at any time, which goes or fails. The reader hears the server, breaks off,
      dials, comes to the end of an attempt, or gives up. */
  datatype Step =
    | Send(msg: ClientMsg, fails: bool, corrupt: bool)
    | Hears(heard: ServerMsg)
    | Breaks(corrupt: bool)
    | Dials
    | Opens(attempt: Attempt)
    | GivesUp

  predicate Enabled(t: Transport, attempts: nat, step: Step) {
    match step
    case Send(_, _, _) => true
    case Hears(_) => t.reader.Listening?
    case Breaks(corrupt) => t.reader.Listening? && MayRedial(attempts, t.memory, corrupt)
    case Dials => t.reader.Between? && t.reader.tried < attempts
    case Opens(_) => t.reader.Opening?
    case GivesUp => t.reader.Between? && t.reader.tried >= attempts
  }

  /** What a step leads to, and what happened in it. */
  function Do(t: Transport, attempts: nat, step: Step): (Transport, seq<Event>)
    requires Enabled(t, attempts, step)
  {
    var m := t.memory;
    match step
    case Send(msg, fails, corrupt) =>
      // A client that never dials again notes nothing, and sends what it is given.
      var out, noted := if attempts > 0 then m.Keyed(msg) else msg, if attempts > 0 then m.Outgoing(msg) else m;
      if fails && MayRedial(attempts, noted, corrupt) then (t.(memory := noted.Unsent(out)), [Said(out), Lost(out)])
      else (t.(memory := noted), [Said(out)])
    case Hears(msg) => (t.(memory := m.Hear(msg)), [Heard(msg)])
    case Breaks(_) => (t.(reader := Between(m.spent)), [])
    case Dials => (t.(reader := Opening(t.reader.tried + 1)), [Dialed])
    case Opens(attempt) =>
      (match attempt
       case Adopted => (Transport(m.AfterGreeting().(spent := t.reader.tried), Listening), [Greeted(m.Greeting())])
       case SplitFails => (Transport(m.AfterGreeting(), Between(t.reader.tried)), [Greeted(m.Greeting())])
       case _ => (t.(reader := Between(t.reader.tried)), []))
    case GivesUp => (Transport(m.(spent := t.reader.tried), Listening), [])
  }

  /** Where a run of enabled steps ends, and all that happened in it. */
  ghost predicate Runs(t: Transport, attempts: nat, steps: seq<Step>, u: Transport, trace: seq<Event>)
    decreases |steps|
  {
    if steps == [] then u == t && trace == []
    else
      Enabled(t, attempts, steps[0]) &&
      var (v, events) := Do(t, attempts, steps[0]);
      events <= trace && Runs(v, attempts, steps[1..], u, trace[|events|..])
  }

  /** The memory, where it is kept, and the count are what the trace says, and a break is dialed only
      while wanted. */
  ghost predicate Inv(t: Transport, trace: seq<Event>, attempts: nat) {
    (attempts > 0 ==> Remembers(t.memory, trace)) && Sound(trace, attempts) && t.Spent() == DialsSince(trace) &&
    (t.reader.Listening? || (t.memory.Wanted() && attempts > 0))
  }

  lemma SendKeeps(t: Transport, trace: seq<Event>, attempts: nat, msg: ClientMsg, fails: bool, corrupt: bool)
    requires Inv(t, trace, attempts)
    ensures var (u, events) := Do(t, attempts, Send(msg, fails, corrupt)); Inv(u, trace + events, attempts)
  {
    hide Remembers, Sound, Memory.Keyed, Memory.Outgoing, Memory.Unsent, Memory.Wanted, DialsSince;
    var m := t.memory;
    if attempts == 0 {
      UnnotedSays(trace, msg);
      SoundSnoc(trace, attempts, Said(msg));
    } else {
      var out, noted := m.Keyed(msg), m.Outgoing(msg);
      var said := trace + [Said(out)];
      SaidRemembered(m, trace, msg);
      SoundSnoc(trace, attempts, Said(out));
      SendingLeaves(m, trace, msg);
      SendingLeaves(noted, said, out);
      LostRemembered(noted, said, out);
      SoundSnoc(said, attempts, Lost(out));
      assert trace + [Said(out), Lost(out)] == said + [Lost(out)];
    }
  }

  lemma UnnotedSays(trace: seq<Event>, msg: ClientMsg)
    ensures DialsSince(trace + [Said(msg)]) == DialsSince(trace)
  {
    Snoc(trace, Said(msg));
  }

  lemma OpenKeeps(t: Transport, trace: seq<Event>, attempts: nat, attempt: Attempt)
    requires Inv(t, trace, attempts) && t.reader.Opening?
    ensures var (u, events) := Do(t, attempts, Opens(attempt)); Inv(u, trace + events, attempts)
  {
    assert trace + [] == trace;
    GreetingRemembered(t.memory, trace);
    SoundSnoc(trace, attempts, Greeted(t.memory.Greeting()));
    Snoc(trace, Greeted(t.memory.Greeting()));
    SpentApart(t.memory.AfterGreeting(), trace + [Greeted(t.memory.Greeting())], t.reader.tried);
    hide Remembers, Sound, Memory.Greeting;
  }

  /** What is remembered does not hang on the count. */
  lemma SpentApart(m: Memory, trace: seq<Event>, spent: nat)
    requires Remembers(m, trace)
    ensures Remembers(m.(spent := spent), trace) && m.(spent := spent).Wanted() == m.Wanted()
  {
  }

  lemma WantedIsOpen(m: Memory, trace: seq<Event>)
    requires Remembers(m, trace) && m.Wanted()
    ensures !Ended(trace) && Latest(trace, AHello).Some?
  {
  }

  lemma StepKeeps(t: Transport, trace: seq<Event>, attempts: nat, step: Step)
    requires Inv(t, trace, attempts) && Enabled(t, attempts, step)
    ensures var (u, events) := Do(t, attempts, step); Inv(u, trace + events, attempts)
  {
    match step
    case Send(msg, fails, corrupt) =>
      SendKeeps(t, trace, attempts, msg, fails, corrupt);
      hide Inv, Do;
    case Opens(attempt) =>
      OpenKeeps(t, trace, attempts, attempt);
      hide Inv, Do;
    case Hears(msg) =>
      hide Remembers, Sound, DialsSince, Memory.Hear;
      HeardCounted(t.memory, trace, msg);
      if attempts > 0 {
        HeardRemembered(t.memory, trace, msg);
      }
      SoundSnoc(trace, attempts, Heard(msg));
    case Dials =>
      hide Remembers, Sound, DialsSince, Memory.Wanted;
      WantedIsOpen(t.memory, trace);
      DialRemembered(t.memory, trace);
      SoundSnoc(trace, attempts, Dialed);
    case Breaks(_) =>
      hide Remembers, Sound, DialsSince, Memory.Wanted;
      assert trace + [] == trace;
    case GivesUp =>
      hide Remembers, Sound, DialsSince, Memory.Wanted;
      assert trace + [] == trace;
      SpentApart(t.memory, trace, t.reader.tried);
  }

  lemma {:induction false} StepsKeep(t: Transport, before: seq<Event>, attempts: nat, steps: seq<Step>, u: Transport,
      trace: seq<Event>)
    requires Inv(t, before, attempts) && Runs(t, attempts, steps, u, trace)
    ensures Inv(u, before + trace, attempts)
    decreases |steps|
  {
    hide Inv, Do;
    if steps == [] {
      assert before + [] == before;
    } else {
      var (v, events) := Do(t, attempts, steps[0]);
      StepKeeps(t, before, attempts, steps[0]);
      StepsKeep(v, before + events, attempts, steps[1..], u, trace[|events|..]);
      assert before + events + trace[|events|..] == before + trace;
    }
  }

  function Joined(key: Option<nat>): Transport { Transport(Unspoken(key), Listening) }

  /** Over every run, the caller sending at any moment, in and between the attempts of a break as
      well: each greeting is the latest of each kept kind ever said, then the newest of the orders
      that failed since the last greeting went out; the dials between two welcomes are no more than
      the attempts; and none follows the end. */
  lemma EveryRun(key: Option<nat>, attempts: nat, steps: seq<Step>, t: Transport, trace: seq<Event>)
    requires Runs(Joined(key), attempts, steps, t, trace)
    ensures attempts > 0 ==> Remembers(t.memory, trace)
    ensures Sound(trace, attempts) && t.Spent() == DialsSince(trace)
  {
    assert [] + trace == trace;
    StepsKeep(Joined(key), [], attempts, steps, t, trace);
  }

  // ---------- a round of attempts ----------

  /** The steps of a round in which the caller sends nothing. */
  function Round(attempts: nat, tried: nat, luck: nat -> Attempt): seq<Step>
    decreases attempts - tried
  {
    if tried >= attempts then [GivesUp]
    else if luck(tried) == Adopted then [Dials, Opens(Adopted)]
    else [Dials, Opens(luck(tried))] + Round(attempts, tried + 1, luck)
  }

  function AfterAttempt(t: Transport, attempt: Attempt): (Transport, seq<Event>)
    requires t.reader.Between?
  {
    var m, tried := t.memory, t.reader.tried + 1;
    match attempt
    case Adopted => (Transport(m.AfterGreeting().(spent := tried), Listening), [Greeted(m.Greeting())])
    case SplitFails => (Transport(m.AfterGreeting(), Between(tried)), [Greeted(m.Greeting())])
    case _ => (Transport(m, Between(tried)), [])
  }

  lemma AttemptLeads(t: Transport, attempts: nat, attempt: Attempt)
    requires t.reader.Between? && t.reader.tried < attempts
    ensures var dialed := t.(reader := Opening(t.reader.tried + 1));
            Enabled(t, attempts, Dials) && Do(t, attempts, Dials) == (dialed, [Dialed]) &&
            Enabled(dialed, attempts, Opens(attempt)) &&
            Do(dialed, attempts, Opens(attempt)) == AfterAttempt(t, attempt)
  {
    hide Memory.Greeting;
  }

  lemma RunsStep(t: Transport, attempts: nat, step: Step, steps: seq<Step>, u: Transport, v: Transport,
                 events: seq<Event>, later: seq<Event>)
    requires Enabled(t, attempts, step) && Do(t, attempts, step) == (v, events) && Runs(v, attempts, steps, u, later)
    ensures Runs(t, attempts, [step] + steps, u, events + later)
  {
    hide Do, Enabled;
    assert ([step] + steps)[1..] == steps && (events + later)[|events|..] == later;
  }

  lemma Regrouped<T>(first: T, second: T, rest: seq<T>)
    ensures [first, second] + rest == [first] + ([second] + rest)
  {
  }

  lemma Chained<T>(a: seq<T>, b: seq<T>, c: seq<T>)
    ensures a + b + c == a + (b + c)
  {
  }

  /** An attempt begun and ended in a run, before the rest of it. */
  lemma RunsAttempt(t: Transport, attempts: nat, attempt: Attempt, rest: seq<Step>, u: Transport, later: seq<Event>)
    requires t.reader.Between? && t.reader.tried < attempts
    requires Runs(AfterAttempt(t, attempt).0, attempts, rest, u, later)
    ensures Runs(t, attempts, [Dials, Opens(attempt)] + rest, u, [Dialed] + AfterAttempt(t, attempt).1 + later)
  {
    AttemptLeads(t, attempts, attempt);
    hide Do, Enabled, Runs, AfterAttempt;
    var (v, told) := AfterAttempt(t, attempt);
    var dialed := t.(reader := Opening(t.reader.tried + 1));
    RunsStep(dialed, attempts, Opens(attempt), rest, u, v, told, later);
    RunsStep(t, attempts, Dials, [Opens(attempt)] + rest, u, dialed, [Dialed], told + later);
    Regrouped(Dials, Opens(attempt), rest);
    Chained([Dialed], told, later);
  }

  /** The dial loop is one of those runs. */
  lemma {:induction false} RoundRuns(m: Memory, attempts: nat, tried: nat, luck: nat -> Attempt)
    ensures var (n, events, _) := m.Tries(attempts, tried, luck);
            Runs(Transport(m, Between(tried)), attempts, Round(attempts, tried, luck), Transport(n, Listening), events)
    decreases attempts - tried
  {
    var t := Transport(m, Between(tried));
    if tried >= attempts {
      NoAttemptLeft(m, attempts, tried);
    } else {
      TriesFirst(m, attempts, tried, luck);
      hide Memory.Tries, Memory.Greeting;
      var (v, told) := AfterAttempt(t, luck(tried));
      if luck(tried) == Adopted {
        NothingRuns(v, attempts);
        hide Runs;
        RunsAttempt(t, attempts, Adopted, [], v, []);
        assert [Dials, Opens(Adopted)] + [] == [Dials, Opens(Adopted)];
      } else {
        RoundRuns(v.memory, attempts, tried + 1, luck);
        hide Runs;
        var (n, later, _) := v.memory.Tries(attempts, tried + 1, luck);
        RunsAttempt(t, attempts, luck(tried), Round(attempts, tried + 1, luck), Transport(n, Listening), later);
      }
    }
  }

  lemma NoAttemptLeft(m: Memory, attempts: nat, tried: nat)
    requires tried >= attempts
    ensures Runs(Transport(m, Between(tried)), attempts, [GivesUp], Transport(m.(spent := tried), Listening), [])
  {
    var given := Transport(m.(spent := tried), Listening);
    var nothing: seq<Event> := [];
    NothingRuns(given, attempts);
    hide Runs;
    RunsStep(Transport(m, Between(tried)), attempts, GivesUp, [], given, given, nothing, nothing);
    assert [GivesUp] + [] == [GivesUp] && nothing + nothing == nothing;
  }

  /** A round is its first attempt and, unless that is adopted, the rest. */
  lemma TriesFirst(m: Memory, attempts: nat, tried: nat, luck: nat -> Attempt)
    requires tried < attempts
    ensures var (v, told) := AfterAttempt(Transport(m, Between(tried)), luck(tried));
            if luck(tried) == Adopted then m.Tries(attempts, tried, luck) == (v.memory, [Dialed] + told + [], true)
            else
              var (n, later, adopted) := v.memory.Tries(attempts, tried + 1, luck);
              m.Tries(attempts, tried, luck) == (n, [Dialed] + told + later, adopted)
  {
    hide Memory.Greeting, Memory.AfterGreeting;
    var told := AfterAttempt(Transport(m, Between(tried)), luck(tried)).1;
    assert told == [] || told == [Greeted(m.Greeting())];
    assert [Dialed] + [] == [Dialed] && [Dialed] + [Greeted(m.Greeting())] == [Dialed, Greeted(m.Greeting())];
    assert [Dialed] + told + [] == [Dialed] + told;
  }

  lemma NothingRuns(t: Transport, attempts: nat)
    ensures Runs(t, attempts, [], t, [])
  {
  }

  // ---------- the orders that failed ----------

  /** What a greeting keeps and gives away: one that fails leaves all it would have said to the
      next, and one that goes out takes its orders with it, though the server refuse the connection
      because the seat is held, or the connection break before it is used. */
  lemma GreetedOnce(m: Memory, held: bool)
    ensures var after := if held then m.AfterGreeting().Hear(SeatHeld) else m.AfterGreeting();
            after.Greeting() + m.unsent == m.Greeting() && after.Wanted() == m.Wanted() &&
            (after.Greeting() == m.Greeting() <==> m.unsent == [])
  {
    var after := if held then m.AfterGreeting().Hear(SeatHeld) else m.AfterGreeting();
    assert after.Greeting() + m.unsent == m.Greeting();
  }

  /** The first greeting to go out after a moment. */
  ghost predicate FirstGreeting(trace: seq<Event>, i: nat, j: nat) {
    i < j < |trace| && trace[j].Greeted? && forall k :: i < k < j ==> !trace[k].Greeted?
  }

  /** The server welcomes the connection greeted, before another is dialed. */
  ghost predicate Answered(trace: seq<Event>, j: nat) {
    exists w :: j < w < |trace| && trace[w] == Heard(Welcome) && forall k :: j < k < w ==> !trace[k].Dialed?
  }

  /** The order is said on a connection the server welcomes. */
  ghost predicate Arrives(trace: seq<Event>, order: ClientMsg) {
    exists j :: 0 <= j < |trace| && trace[j].Greeted? && order in trace[j].frames && Answered(trace, j)
  }

  /** The event happens there alone. */
  ghost predicate Once(trace: seq<Event>, i: nat)
    requires i < |trace|
  {
    forall k :: 0 <= k < |trace| && trace[k] == trace[i] ==> k == i
  }

  lemma {:induction false} SaidWhatIsDue(trace: seq<Event>, attempts: nat, j: nat)
    requires Sound(trace, attempts) && j < |trace| && trace[j].Greeted?
    ensures trace[j].frames == Due(trace[..j])
  {
    hide Due;
    var before := trace[..|trace| - 1];
    if j < |before| {
      SaidWhatIsDue(before, attempts, j);
      assert before[..j] == trace[..j];
    }
  }

  lemma {:induction false} LatestIsOfKind(trace: seq<Event>, kind: Kind)
    ensures Latest(trace, kind).Some? ==> KindOf(Latest(trace, kind).value) == Some(kind)
  {
    if trace != [] {
      LatestIsOfKind(trace[..|trace| - 1], kind);
    }
  }

  lemma ListsNoOrder(trace: seq<Event>, kind: Kind, order: ClientMsg)
    requires order.Order?
    ensures order !in Listed(Latest(trace, kind))
  {
    LatestIsOfKind(trace, kind);
    hide Latest;
  }

  lemma KeepsakesHoldNone(trace: seq<Event>, order: ClientMsg)
    requires order.Order?
    ensures order !in Keepsakes(trace)
  {
    hide Latest, Listed;
    ListsNoOrder(trace, AHello, order);
    ListsNoOrder(trace, ACatalogue, order);
    ListsNoOrder(trace, ACompress, order);
    ListsNoOrder(trace, APick, order);
    ListsNoOrder(trace, AReady, order);
    ListsNoOrder(trace, TheEyes, order);
  }

  /** An order is due if and only if it is among the newest that failed. */
  lemma OrderDue(trace: seq<Event>, order: ClientMsg)
    requires order.Order?
    ensures order in Due(trace) <==> order in Newest(FailedSince(trace))
  {
    KeepsakesHoldNone(trace, order);
    hide Keepsakes, Newest, FailedSince;
  }

  lemma {:induction false} FailedJoins(a: seq<Event>, b: seq<Event>)
    requires forall k :: 0 <= k < |b| ==> !b[k].Greeted?
    ensures FailedSince(a + b) == FailedSince(a) + FailedSince(b)
  {
    if b == [] {
      assert a + b == a;
    } else {
      assert (a + b)[..|a + b| - 1] == a + b[..|b| - 1];
      FailedJoins(a, b[..|b| - 1]);
    }
  }

  /** What failed since the last greeting was lost after it. */
  lemma {:induction false} FailedAfter(trace: seq<Event>, order: ClientMsg)
    requires order in FailedSince(trace)
    ensures exists i ::
            0 <= i < |trace| && trace[i] == Lost(order) && forall k :: i < k < |trace| ==> !trace[k].Greeted?
  {
    var n := |trace| - 1;
    if trace[n] != Lost(order) {
      FailedAfter(trace[..n], order);
      var i :| 0 <= i < n && trace[..n][i] == Lost(order) && forall k :: i < k < n ==> !trace[..n][k].Greeted?;
      assert trace[i] == Lost(order);
      forall k | i < k < |trace|
        ensures !trace[k].Greeted?
      {
        assert k < n ==> trace[..n][k] == trace[k];
      }
    }
  }

  /** An order lost once can be due only to the first greeting after it. */
  lemma DueToFirst(trace: seq<Event>, i: nat, j: nat)
    requires i < |trace| && trace[i].Lost? && Once(trace, i) && j < |trace| && trace[j].Greeted?
    requires trace[i].lost in FailedSince(trace[..j])
    ensures FirstGreeting(trace, i, j)
  {
    hide FailedSince;
    FailedAfter(trace[..j], trace[i].lost);
    var k :| 0 <= k < j && trace[..j][k] == Lost(trace[i].lost) && forall l :: k < l < j ==> !trace[..j][l].Greeted?;
    assert trace[k] == trace[i];
    assert forall l :: k < l < j ==> trace[..j][l] == trace[l];
  }

  lemma NeverFailed(trace: seq<Event>, order: ClientMsg)
    requires forall k :: 0 <= k < |trace| ==> trace[k] != Lost(order)
    ensures order !in FailedSince(trace)
  {
    if order in FailedSince(trace) {
      FailedAfter(trace, order);
    }
  }

  /** What failed up to a greeting, told apart at one order. */
  lemma FailedAround(trace: seq<Event>, i: nat, j: nat)
    requires i < j <= |trace| && trace[i].Lost? && trace[i].lost.Order? && forall k :: i < k < j ==> !trace[k].Greeted?
    ensures FailedSince(trace[..j]) == FailedSince(trace[..i]) + [trace[i].lost] + FailedSince(trace[i + 1..j])
  {
    var before, after := trace[..i], trace[i + 1..j];
    assert trace[..j] == before + [trace[i]] + after;
    Snoc(before, trace[i]);
    assert FailedSince(before + [trace[i]]) == FailedSince(before) + [trace[i].lost];
    hide FailedSince;
    FailedJoins(before + [trace[i]], after);
  }

  /** A greeting says an order lost once if and only if it is the first since and fewer than 64 orders
      failed after that one. */
  lemma SaidByFirst(trace: seq<Event>, attempts: nat, i: nat, j: nat)
    requires Sound(trace, attempts) && i < |trace| && trace[i].Lost? && trace[i].lost.Order? && Once(trace, i)
    requires j < |trace| && trace[j].Greeted?
    ensures trace[i].lost in trace[j].frames <==>
            FirstGreeting(trace, i, j) && |FailedSince(trace[i + 1..j])| < MAX_UNSENT
  {
    SaidWhatIsDue(trace, attempts, j);
    OrderDue(trace[..j], trace[i].lost);
    hide Sound, Due, FailedSince;
    if trace[i].lost in FailedSince(trace[..j]) {
      DueToFirst(trace, i, j);
    }
    if FirstGreeting(trace, i, j) {
      FailedAround(trace, i, j);
      assert forall k :: i + 1 <= k < j ==> trace[k] != trace[i];
      NeverFailed(trace[i + 1..j], trace[i].lost);
      NewestHas(FailedSince(trace[..i]), trace[i].lost, FailedSince(trace[i + 1..j]));
    }
  }

  lemma NewestHas(before: seq<ClientMsg>, order: ClientMsg, after: seq<ClientMsg>)
    requires order !in after
    ensures order in Newest(before + [order] + after) <==> |after| < MAX_UNSENT
  {
    var all := before + [order] + after;
    if |after| < MAX_UNSENT {
      var at := |Newest(all)| - |after| - 1;
      assert Newest(all)[at] == order;
    } else {
      assert Newest(all) == after[|after| - MAX_UNSENT..];
    }
  }

  /** Over every run, an order whose sending failed arrives if and only if the first greeting to go
      out after it is welcomed before another dial, and fewer than 64 orders failed in between. */
  lemma OrderArrives(trace: seq<Event>, attempts: nat, i: nat)
    requires Sound(trace, attempts) && i < |trace| && trace[i].Lost? && trace[i].lost.Order? && Once(trace, i)
    ensures Arrives(trace, trace[i].lost) <==>
            exists j: nat ::
              FirstGreeting(trace, i, j) && |FailedSince(trace[i + 1..j])| < MAX_UNSENT && Answered(trace, j)
  {
    hide Sound, Answered, FailedSince;
    if j :| 0 <= j < |trace| && trace[j].Greeted? && trace[i].lost in trace[j].frames && Answered(trace, j) {
      SaidByFirst(trace, attempts, i, j);
    }
    if j: nat :| FirstGreeting(trace, i, j) && |FailedSince(trace[i + 1..j])| < MAX_UNSENT && Answered(trace, j) {
      SaidByFirst(trace, attempts, i, j);
    }
  }

  /** So once another connection is dialed before the first greeting is welcomed, however the run goes
      on, the order never arrives. */
  lemma LostForGood(trace: seq<Event>, attempts: nat, i: nat, j: nat, d: nat)
    requires Sound(trace, attempts) && i < |trace| && trace[i].Lost? && trace[i].lost.Order? && Once(trace, i)
    requires FirstGreeting(trace, i, j) && j < d < |trace| && trace[d].Dialed?
    requires forall k :: j < k < d ==> trace[k] != Heard(Welcome)
    ensures !Arrives(trace, trace[i].lost)
  {
    OrderArrives(trace, attempts, i);
    hide Sound, Arrives, FailedSince;
    if k: nat :| FirstGreeting(trace, i, k) && |FailedSince(trace[i + 1..k])| < MAX_UNSENT && Answered(trace, k) {
      assert k == j;
    }
  }

  lemma {:induction false} RunsOn(t: Transport, attempts: nat, steps: seq<Step>, u: Transport, trace: seq<Event>,
      step: Step)
    requires Runs(t, attempts, steps, u, trace) && Enabled(u, attempts, step)
    ensures var (v, events) := Do(u, attempts, step); Runs(t, attempts, steps + [step], v, trace + events)
    decreases |steps|
  {
    hide Do, Enabled;
    var (v, events) := Do(u, attempts, step);
    if steps == [] {
      assert [step][1..] == [] && trace + events == events && events[|events|..] == [];
      assert steps + [step] == [step];
    } else {
      var (w, first) := Do(t, attempts, steps[0]);
      RunsOn(w, attempts, steps[1..], u, trace[|first|..], step);
      assert (steps + [step])[1..] == steps[1..] + [step];
      assert (trace + events)[|first|..] == trace[|first|..] + events;
    }
  }

  /** A run one step longer, where the step is known. */
  lemma Onward(steps: seq<Step>, t: Transport, trace: seq<Event>, step: Step, u: Transport, events: seq<Event>)
    returns (more: seq<Step>)
    requires Runs(Joined(None), 2, steps, t, trace) && Leads(t, step, u, events)
    ensures Runs(Joined(None), 2, more, u, trace + events)
  {
    hide Do, Enabled;
    RunsOn(Joined(None), 2, steps, t, trace, step);
    more := steps + [step];
  }

  ghost predicate Leads(t: Transport, step: Step, u: Transport, events: seq<Event>) {
    Enabled(t, 2, step) && Do(t, 2, step) == (u, events)
  }

  lemma PlainGreeting(m: Memory)
    requires m.hello.Some? && m.catalogue == m.compress == m.pick == m.ready == m.eyes == None
    ensures m.Greeting() == [m.hello.value] + m.unsent
    ensures m.unsent == [] ==> m.Greeting() == [m.hello.value]
    ensures |m.unsent| == 1 ==> m.Greeting() == [m.hello.value, m.unsent[0]]
  {
  }

  const HELLO := Hello(Player, Some(7), 0)
  const FAILED := Order(1, 0)

  /** What such a client remembers once welcomed, once an order failed, and once it asks again. */
  const SEATED := Unspoken(None).(hello := Some(HELLO))
  const BROKEN := SEATED.(unsent := [FAILED])
  const ASKING := SEATED.(rejoining := true, spent := 1)

  /** The steps of a run in which the seat is still held, where each leads, and what happens in it. */
  function HeldRun(n: nat): (Step, Transport, seq<Event>) {
    match n
    case 0 => (Send(HELLO, false, false), Transport(SEATED.(rejoining := true), Listening), [Said(HELLO)])
    case 1 => (Hears(Welcome), Transport(SEATED, Listening), [Heard(Welcome)])
    case 2 => (Send(FAILED, true, false), Transport(BROKEN, Listening), [Said(FAILED), Lost(FAILED)])
    case 3 => (Breaks(false), Transport(BROKEN, Between(0)), [])
    case 4 => (Dials, Transport(BROKEN, Opening(1)), [Dialed])
    case 5 => (Opens(Adopted), Transport(ASKING, Listening), [Greeted([HELLO, FAILED])])
    case 6 => (Hears(SeatHeld), Transport(ASKING, Listening), [Heard(SeatHeld)])
    case 7 => (Breaks(false), Transport(ASKING, Between(1)), [])
    case 8 => (Dials, Transport(ASKING, Opening(2)), [Dialed])
    case 9 => (Opens(Adopted), Transport(ASKING.(spent := 2), Listening), [Greeted([HELLO])])
    case _ => (Hears(Welcome), Transport(SEATED, Listening), [Heard(Welcome)])
  }

  function HeldAt(n: nat): Transport { if n == 0 then Joined(None) else HeldRun(n - 1).1 }

  function HeldTrace(n: nat): seq<Event> { if n == 0 then [] else HeldTrace(n - 1) + HeldRun(n - 1).2 }

  lemma HeldStep(n: nat)
    requires n < 11
    ensures Leads(HeldAt(n), HeldRun(n).0, HeldAt(n + 1), HeldRun(n).2)
  {
    PlainGreeting(BROKEN);
    PlainGreeting(ASKING);
    assert SEATED.unsent + [FAILED] == [FAILED];
    hide Memory.Greeting;
  }

  lemma {:induction false} HeldRuns(n: nat) returns (steps: seq<Step>)
    requires n <= 11
    ensures Runs(Joined(None), 2, steps, HeldAt(n), HeldTrace(n))
  {
    if n == 0 {
      NothingRuns(Joined(None), 2);
      steps := [];
    } else {
      HeldStep(n - 1);
      hide Runs, Leads, HeldRun;
      steps := HeldRuns(n - 1);
      steps := Onward(steps, HeldAt(n - 1), HeldTrace(n - 1), HeldRun(n - 1).0, HeldAt(n), HeldRun(n - 1).2);
    }
  }

  lemma HeldTraceHalf()
    ensures HeldTrace(6) == [Said(HELLO), Heard(Welcome), Said(FAILED), Lost(FAILED), Dialed, Greeted([HELLO, FAILED])]
  {
    assert HeldTrace(0) == [] && HeldTrace(1) == [] + [Said(HELLO)];
    assert HeldTrace(2) == [Said(HELLO), Heard(Welcome)];
    assert HeldTrace(4) == [Said(HELLO), Heard(Welcome), Said(FAILED), Lost(FAILED)];
    assert HeldTrace(5) == HeldTrace(4) + [Dialed];
  }

  lemma HeldTraceSpelled()
    ensures HeldTrace(11) == [Said(HELLO), Heard(Welcome), Said(FAILED), Lost(FAILED), Dialed, Greeted([HELLO, FAILED]),
                              Heard(SeatHeld), Dialed, Greeted([HELLO]), Heard(Welcome)]
  {
    HeldTraceHalf();
    assert HeldTrace(7) == HeldTrace(6) + [Heard(SeatHeld)] && HeldTrace(8) == HeldTrace(7) + [];
    assert HeldTrace(9) == HeldTrace(8) + [Dialed] && HeldTrace(10) == HeldTrace(9) + [Greeted([HELLO])];
    hide HeldTrace;
  }

  /** A run in which a held seat loses an order: welcomed, an order fails, the greeting that says it
      is refused because the seat is still held, and the one that is welcomed no longer says it. */
  lemma HeldSeatLosesOrder() returns (steps: seq<Step>, trace: seq<Event>)
    ensures Runs(Joined(None), 2, steps, Transport(SEATED, Listening), trace)
    ensures trace == [Said(HELLO), Heard(Welcome), Said(FAILED), Lost(FAILED), Dialed, Greeted([HELLO, FAILED]),
                      Heard(SeatHeld), Dialed, Greeted([HELLO]), Heard(Welcome)]
    ensures !Arrives(trace, FAILED)
  {
    hide Runs, Sound, Remembers, DialsSince, Arrives, HeldTrace;
    steps := HeldRuns(11);
    trace := HeldTrace(11);
    EveryRun(None, 2, steps, Transport(SEATED, Listening), trace);
    HeldTraceSpelled();
    NeverArrives(trace);
  }

  lemma NeverArrives(trace: seq<Event>)
    requires Sound(trace, 2)
    requires trace == [Said(HELLO), Heard(Welcome), Said(FAILED), Lost(FAILED), Dialed, Greeted([HELLO, FAILED]),
                       Heard(SeatHeld), Dialed, Greeted([HELLO]), Heard(Welcome)]
    ensures !Arrives(trace, FAILED)
  {
    hide Sound, Arrives;
    assert trace[3] == Lost(FAILED) && trace[5].Greeted? && trace[7].Dialed?;
    LostForGood(trace, 2, 3, 5, 7);
  }
}
