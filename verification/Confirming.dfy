/** session/confirmations.rs: which of the connection's own orders the snapshots have settled. */
module Confirming {
  import opened Machine

  /** A full window of intended delay, at the most orders a tick. */
  const MAX_REQUESTS: nat := (30 + 1) * 64

  /** What a snapshot says is settled of a seat's orders; the connection is absent within one process. */
  datatype Settlement = Settlement(connection: Option<nat>, sequence: u32, seen: Option<u32>, tick: u32)

  /** An order sent, and the snapshot it was given on. */
  type Request = (u32, u32)

  datatype Confirmed = Confirmed(connection: Option<nat>, sent: seq<Request>, through: u32)
  {
    function Bind(player: nat): Confirmed {
      if connection == Some(player) then this else Confirmed(Some(player), [], 0)
    }

    function Record(sequence: u32, seen: u32): Confirmed {
      this.(sent := (if |sent| == MAX_REQUESTS then sent[1..] else sent) + [(sequence, seen)])
    }

    /** A settlement is taken if it is this connection's, due, and of exactly an order sent. */
    predicate Takes(settled: Option<Settlement>, tick: u32) {
      settled.Some? && settled.value.connection == connection && settled.value.tick <= tick &&
        settled.value.seen.Some? &&
      (settled.value.sequence, settled.value.seen.value) in sent
    }

    function Snapshot(settled: Option<Settlement>, tick: u32): Confirmed {
      if !Takes(settled, tick) then this
      else
        var settledThrough := Max(through, settled.value.sequence);
        Confirmed(connection, Beyond(sent, settledThrough), settledThrough)
    }
  }

  const UNBOUND := Confirmed(None, [], 0)

  /** The requests from the first one numbered above `through` on. */
  function Beyond(sent: seq<Request>, through: u32): seq<Request> {
    if sent != [] && sent[0].0 <= through then Beyond(sent[1..], through) else sent
  }

  class Confirmations {
    var connection: Option<nat>
    var sent: seq<Request>
    var through: u32

    ghost function Now(): Confirmed reads this { Confirmed(connection, sent, through) }

    constructor ()
      ensures Now() == UNBOUND
    {
      connection, sent, through := None, [], 0;
    }

    method Bind(player: nat) returns (anew: bool)
      modifies this
      ensures Now() == old(Now()).Bind(player) && anew == (old(connection) != Some(player))
    {
      if connection == Some(player) {
        return false;
      }
      connection, sent, through := Some(player), [], 0;
      return true;
    }

    method Record(sequence: u32, seen: u32)
      modifies this`sent
      ensures Now() == old(Now()).Record(sequence, seen)
    {
      if |sent| == MAX_REQUESTS {
        sent := sent[1..];
      }
      sent := sent + [(sequence, seen)];
    }

    method Snapshot(settled: Option<Settlement>, tick: u32)
      modifies this
      ensures Now() == old(Now()).Snapshot(settled, tick)
    {
      if settled == None || settled.value.connection != connection || settled.value.tick > tick ||
        settled.value.seen == None {
        return;
      }
      if (settled.value.sequence, settled.value.seen.value) !in sent {
        return;
      }
      through := Max(through, settled.value.sequence);
      while sent != [] && sent[0].0 <= through
        invariant through == Max(old(through), settled.value.sequence) && connection == old(connection)
        invariant Beyond(sent, through) == Beyond(old(sent), through)
      {
        sent := sent[1..];
      }
    }
  }

  /** The orders awaited are those last given, in order, and none settled is among them. */
  ghost predicate Inv(c: Confirmed, issued: u32) {
    |c.sent| <= MAX_REQUESTS && c.through <= issued &&
    (forall i :: 0 <= i < |c.sent| ==> c.through < c.sent[i].0 <= issued) && InOrder(c.sent)
  }

  /** Only a connection not yet bound begins anew. */
  lemma BindKeeps(c: Confirmed, issued: u32, player: nat)
    requires Inv(c, issued)
    ensures Inv(c.Bind(player), issued) && c.Bind(player).connection == Some(player)
    ensures if c.connection == Some(player) then c.Bind(player) == c
            else c.Bind(player).sent == [] && c.Bind(player).through == 0
  {
  }

  lemma RecordKeeps(c: Confirmed, issued: u32, sequence: u32, seen: u32)
    requires Inv(c, issued) && issued < sequence
    ensures Inv(c.Record(sequence, seen), sequence)
  {
  }

  ghost predicate InOrder(sent: seq<Request>) { forall i, j :: 0 <= i < j < |sent| ==> sent[i].0 < sent[j].0 }

  /** Of requests in order, those beyond a number are left, still in order. */
  lemma {:induction false} BeyondLeaves(sent: seq<Request>, through: u32)
    requires InOrder(sent)
    ensures var beyond := Beyond(sent, through);
            |beyond| <= |sent| && InOrder(beyond) && forall request: Request ::
              request in beyond <==> request in sent && request.0 > through
  {
    if sent != [] && sent[0].0 <= through {
      BeyondLeaves(sent[1..], through);
      assert sent == [sent[0]] + sent[1..];
    } else {
      assert forall i :: 0 <= i < |sent| ==> sent[i].0 > through;
    }
  }

  /** Settling an order settles exactly the awaited ones up to it, and none is ever unsettled. */
  lemma SnapshotSettles(c: Confirmed, issued: u32, settled: Option<Settlement>, tick: u32)
    requires Inv(c, issued)
    ensures var d := c.Snapshot(settled, tick);
            Inv(d, issued) && d.connection == c.connection && c.through <= d.through &&
            (d.through != c.through <==> c.Takes(settled, tick)) &&
            (c.Takes(settled, tick) ==> d.through == settled.value.sequence) &&
            forall request: Request :: request in d.sent <==> request in c.sent && request.0 > d.through
  {
    if c.Takes(settled, tick) {
      var request := (settled.value.sequence, settled.value.seen.value);
      var i :| 0 <= i < |c.sent| && c.sent[i] == request;
      assert c.through < request.0 <= issued;
      BeyondLeaves(c.sent, request.0);
      hide Beyond, InOrder;
      var d := c.Snapshot(settled, tick);
      forall k | 0 <= k < |d.sent|
        ensures d.through < d.sent[k].0 <= issued
      {
        assert d.sent[k] in c.sent;
      }
    }
  }

  /** What an earlier connection is told to have settled settles nothing of a new one, though its
      orders bear the same numbers and snapshots. */
  lemma NewConnectionAwaitsItsOwn(c: Confirmed, player: nat, settled: Option<Settlement>, tick: u32)
    requires c.connection != Some(player) && settled.Some? && settled.value.connection != Some(player)
    ensures forall later: seq<Request> ::
            c.Bind(player).(sent := later).Snapshot(settled, tick) == c.Bind(player).(sent := later)
    ensures c.Bind(player).through == 0
  {
  }
}
