/** What a fresh connection is told, and when one is dialed at all, said of what the client said before. */
module Greetings {
  import opened Machine
  import opened Redial

  /** What a client says again on a fresh connection. */
  predicate Repeated(msg: ClientMsg) {
    msg.Hello? || msg.Catalogue? || msg.Compress? || msg.PickHero? || msg.SetReady? || msg.ViewAs?
  }

  predicate Alike(a: ClientMsg, b: ClientMsg) {
    (a.Hello? && b.Hello?) || (a.Catalogue? && b.Catalogue?) || (a.Compress? && b.Compress?) ||
    (a.PickHero? && b.PickHero?) || (a.SetReady? && b.SetReady?) || (a.ViewAs? && b.ViewAs?)
  }

  /** The place of a message in a greeting. */
  function Rank(msg: ClientMsg): nat {
    match msg
    case Hello(_, _, _) => 0
    case Catalogue(_) => 1
    case Compress(_) => 2
    case PickHero(_) => 3
    case SetReady(_) => 4
    case ViewAs(_) => 5
    case Order(_, _) => 6
    case _ => 7
  }

  /** The last message like one a trace says, and no other since. */
  ghost predicate LastSaid(trace: seq<Event>, i: nat) {
    i < |trace| && trace[i].Said? && Repeated(trace[i].msg) &&
    forall j :: i < j < |trace| && trace[j].Said? ==> !Alike(trace[j].msg, trace[i].msg)
  }

  lemma {:induction false} LatestIsLastSaid(trace: seq<Event>, i: nat)
    requires LastSaid(trace, i)
    ensures KindOf(trace[i].msg).Some? && Latest(trace, KindOf(trace[i].msg).value) == Some(trace[i].msg)
    decreases |trace|
  {
    if i < |trace| - 1 {
      var before := trace[..|trace| - 1];
      assert before[i] == trace[i];
      assert forall j :: i < j < |before| ==> before[j] == trace[j];
      LatestIsLastSaid(before, i);
    }
  }

  lemma {:induction false} LatestWasSaid(trace: seq<Event>, kind: Kind)
    requires Latest(trace, kind).Some?
    ensures exists i: nat :: LastSaid(trace, i) && trace[i].msg == Latest(trace, kind).value &&
                        KindOf(trace[i].msg) == Some(kind)
  {
    var n := |trace| - 1;
    if trace[n].Said? && KindOf(trace[n].msg) == Some(kind) {
      assert LastSaid(trace, n);
    } else {
      var before := trace[..n];
      LatestWasSaid(before, kind);
      var i: nat :|
        LastSaid(before, i) && before[i].msg == Latest(before, kind).value && KindOf(before[i].msg) == Some(kind);
      assert trace[i] == before[i] && forall j :: i < j < n ==> trace[j] == before[j];
      assert LastSaid(trace, i);
    }
  }

  lemma {:induction false} FailedAreOrders(trace: seq<Event>)
    ensures forall o :: o in FailedSince(trace) ==> o.Order?
  {
    if trace != [] {
      FailedAreOrders(trace[..|trace| - 1]);
    }
  }

  ghost predicate Ranked(frames: seq<ClientMsg>) {
    forall i, j :: 0 <= i < j < |frames| ==>
      Rank(frames[i]) < Rank(frames[j]) || Rank(frames[i]) == Rank(frames[j]) == 6
  }

  lemma RankedWith(first: seq<ClientMsg>, kept: Option<ClientMsg>, rank: nat)
    requires Ranked(first) && rank < 6 && forall m :: m in first ==> Rank(m) < rank
    requires kept.Some? ==> Rank(kept.value) == rank
    ensures Ranked(first + Listed(kept)) && forall m :: m in first + Listed(kept) ==> Rank(m) <= rank
  {
    var all := first + Listed(kept);
    forall i, j | 0 <= i < j < |all|
      ensures Rank(all[i]) < Rank(all[j])
    {
      assert all[i] in first;
      assert Rank(all[i]) < rank;
      if j < |first| {
        assert Ranked(first) && all[j] == first[j] && all[i] == first[i];
        assert first[j] in first;
      }
    }
  }

  /** The latest of a kind has its rank. */
  lemma RankOf(trace: seq<Event>, kind: Kind)
    ensures Latest(trace, kind).Some? ==>
              KindOf(Latest(trace, kind).value) == Some(kind) &&
              Rank(Latest(trace, kind).value) ==
                match kind
                case AHello => 0
                case ACatalogue => 1
                case ACompress => 2
                case APick => 3
                case AReady => 4
                case TheEyes => 5
  {
    if Latest(trace, kind).Some? {
      LatestWasSaid(trace, kind);
    }
    hide Latest;
  }

  lemma KeepsakesRanked(trace: seq<Event>)
    ensures Ranked(Keepsakes(trace)) && forall m :: m in Keepsakes(trace) ==> Rank(m) < 6
  {
    RankOf(trace, AHello);
    RankOf(trace, ACatalogue);
    RankOf(trace, ACompress);
    RankOf(trace, APick);
    RankOf(trace, AReady);
    RankOf(trace, TheEyes);
    hide Latest, Ranked, Rank, Listed, KindOf;
    var one := Listed(Latest(trace, AHello));
    RankedWith([], Latest(trace, AHello), 0) by { EmptyRanked(); }
    assert [] + one == one;
    var two := one + Listed(Latest(trace, ACatalogue));
    RankedWith(one, Latest(trace, ACatalogue), 1);
    var three := two + Listed(Latest(trace, ACompress));
    RankedWith(two, Latest(trace, ACompress), 2);
    var four := three + Listed(Latest(trace, APick));
    RankedWith(three, Latest(trace, APick), 3);
    var five := four + Listed(Latest(trace, AReady));
    RankedWith(four, Latest(trace, AReady), 4);
    RankedWith(five, Latest(trace, TheEyes), 5);
  }

  lemma EmptyRanked()
    ensures Ranked([])
  {
  }

  /** After every run a greeting says the last hello, catalogue, compression, pick, readiness and view
      said, each if there is one and in that order, then orders whose sending failed, and nothing else. */
  lemma GreetingSays(key: Option<nat>, attempts: nat, steps: seq<Step>, t: Transport, trace: seq<Event>, i: nat)
    requires Runs(Joined(key), attempts, steps, t, trace) && attempts > 0
    ensures Ranked(t.memory.Greeting())
    ensures LastSaid(trace, i) ==> trace[i].msg in t.memory.Greeting()
    ensures forall m :: m in t.memory.Greeting() ==>
              (m.Order? && m in FailedSince(trace)) || exists k: nat :: LastSaid(trace, k) && trace[k].msg == m
  {
    EveryRun(key, attempts, steps, t, trace);
    hide Runs;
    KeepsakesRanked(trace);
    FailedAreOrders(trace);
    GreetingIsDue(t.memory, trace);
    JoinsRanked(Keepsakes(trace), Newest(FailedSince(trace)));
    if LastSaid(trace, i) {
      LatestIsLastSaid(trace, i);
      KeepsakesHold(trace, KindOf(trace[i].msg).value);
    }
    forall m | m in t.memory.Greeting()
      ensures (m.Order? && m in FailedSince(trace)) || exists k: nat :: LastSaid(trace, k) && trace[k].msg == m
    {
      if m in Keepsakes(trace) {
        var kind := KeepsakeKind(trace, m);
        LatestWasSaid(trace, kind);
      }
    }
  }

  lemma GreetingIsDue(m: Memory, trace: seq<Event>)
    requires Remembers(m, trace)
    ensures m.Greeting() == Keepsakes(trace) + Newest(FailedSince(trace))
  {
  }

  lemma KeepsakesHold(trace: seq<Event>, kind: Kind)
    requires Latest(trace, kind).Some?
    ensures Latest(trace, kind).value in Keepsakes(trace)
  {
    hide Latest;
  }

  lemma KeepsakeKind(trace: seq<Event>, m: ClientMsg) returns (kind: Kind)
    requires m in Keepsakes(trace)
    ensures Latest(trace, kind) == Some(m)
  {
    hide Latest;
    kind :| Latest(trace, kind) == Some(m);
  }

  lemma JoinsRanked(kept: seq<ClientMsg>, orders: seq<ClientMsg>)
    requires Ranked(kept) && (forall m :: m in kept ==> Rank(m) < 6) && forall o :: o in orders ==> o.Order?
    ensures Ranked(kept + orders)
  {
    var all := kept + orders;
    forall i, j | 0 <= i < j < |all|
      ensures Rank(all[i]) < Rank(all[j]) || Rank(all[i]) == Rank(all[j]) == 6
    {
      assert i < |kept| ==> all[i] in kept && all[i] == kept[i];
      assert j < |kept| ==> all[j] == kept[j];
      assert i >= |kept| ==> all[i] in orders;
      assert j >= |kept| ==> all[j] in orders;
    }
  }

  // ---------- what goes out ----------

  /** A message as it goes out: a hello for a seat with no key of its own takes the one drawn. */
  ghost predicate GoesOutAs(key: Option<nat>, msg: ClientMsg, out: ClientMsg) {
    if msg.Hello? && (msg.role == Player || msg.role == Bot) && msg.key == None
      then out.Hello? && out.role == msg.role && out.rest == msg.rest && out.key == key
    else out == msg
  }

  lemma StepKeepsKey(t: Transport, attempts: nat, step: Step)
    requires Enabled(t, attempts, step)
    ensures Do(t, attempts, step).0.memory.key == t.memory.key
  {
    hide Memory.Keyed, Memory.Greeting, MayRedial;
  }

  lemma {:induction false} SameKey(t: Transport, attempts: nat, steps: seq<Step>, u: Transport, trace: seq<Event>)
    requires Runs(t, attempts, steps, u, trace)
    ensures u.memory.key == t.memory.key
    decreases |steps|
  {
    hide Do, Enabled;
    if steps != [] {
      var (v, events) := Do(t, attempts, steps[0]);
      StepKeepsKey(t, attempts, steps[0]);
      SameKey(v, attempts, steps[1..], u, trace[|events|..]);
      hide Runs;
    }
  }

  /** After every run: what is sent goes out as itself but for a seat's key, which only a client that
      dials again adds; and a message that cannot be sent is kept to say again only where the break
      can still be dialed, which is when attempts are allowed, a hello was ever said, the server has
      not ended it, and the stream is not corrupt. */
  lemma SendingTells(key: Option<nat>, attempts: nat, steps: seq<Step>, t: Transport, trace: seq<Event>,
                     msg: ClientMsg, fails: bool, corrupt: bool)
    requires Runs(Joined(key), attempts, steps, t, trace)
    ensures var (u, events) := Do(t, attempts, Send(msg, fails, corrupt));
            var dialed := attempts > 0 && (msg.Hello? || Latest(trace, AHello).Some?) && !Ended(trace) && !corrupt;
            events != [] && events[0].Said? && GoesOutAs(if attempts > 0 then key else None, msg, events[0].msg) &&
            events == [events[0]] + (if fails && dialed then [Lost(events[0].msg)] else []) && u.reader == t.reader
  {
    EveryRun(key, attempts, steps, t, trace);
    SameKey(Joined(key), attempts, steps, t, trace);
    hide Runs, Latest, Ended, FailedSince, Asking, Newest, Sound, DialsSince;
    var said := [Said(if attempts > 0 then t.memory.Keyed(msg) else msg)];
    assert said + [] == said;
  }

  /** A break is dialed exactly then; and a seat held back for one who asks to have it back ends nothing. */
  lemma DialedWhen(key: Option<nat>, attempts: nat, steps: seq<Step>, t: Transport, trace: seq<Event>, corrupt: bool,
                   msg: ServerMsg)
    requires Runs(Joined(key), attempts, steps, t, trace)
    ensures MayRedial(attempts, t.memory, corrupt) <==>
              attempts > 0 && Latest(trace, AHello).Some? && !Ended(trace) && !corrupt
    ensures attempts > 0 ==> (t.memory.HeldOff(msg) <==> msg == SeatHeld && Asking(trace))
    ensures t.memory.HeldOff(msg) ==> t.memory.Hear(msg) == t.memory
  {
    EveryRun(key, attempts, steps, t, trace);
    hide Runs, Latest, Ended, FailedSince, Asking, Newest, Sound, DialsSince;
  }

  /** Between two attempts the next is dialed exactly while some are left since the last welcome, and the
      break is given up exactly when none are. */
  lemma GivesUpWhenSpent(key: Option<nat>, attempts: nat, steps: seq<Step>, t: Transport, trace: seq<Event>)
    requires Runs(Joined(key), attempts, steps, t, trace) && t.reader.Between?
    ensures Enabled(t, attempts, Dials) <==> DialsSince(trace) < attempts
    ensures Enabled(t, attempts, GivesUp) <==> DialsSince(trace) >= attempts
  {
    EveryRun(key, attempts, steps, t, trace);
    hide Runs, DialsSince, Sound, Remembers;
  }

  /** An undisturbed round is adopted exactly when one of the attempts left would be, and counts up to
      that one, or to the last. */
  lemma {:induction false} RoundAdopts(m: Memory, attempts: nat, tried: nat, luck: nat -> Attempt)
    ensures var (n, _, taken) := m.Tries(attempts, tried, luck);
            (taken <==> exists k :: tried <= k < attempts && luck(k) == Adopted) &&
            (taken ==> tried < n.spent <= attempts && luck(n.spent - 1) == Adopted) &&
            (forall k :: tried <= k < n.spent - 1 ==> luck(k) != Adopted) &&
            (!taken ==> n.spent == Max(tried, attempts))
    decreases attempts - tried
  {
    if tried < attempts && luck(tried) != Adopted {
      RoundAdopts(if luck(tried).SplitFails? then m.AfterGreeting() else m, attempts, tried + 1, luck);
      hide Memory.AfterGreeting, Memory.Greeting;
    }
  }
}
