/** seat.rs: one seat's stream from the lobby to the end of the match, over one connection or several. */
module Seat {
  import opened Machine
  import opened Session
  import Orders
  import Readiness

  const MAX_MESSAGES_BEFORE_MATCH_START: nat := 4096

  /** What a welcome assigned: the connection, the seat, the match's pace, and the hero picked on joining. */
  datatype Seated = Seated(player: nat, slot: u8, tickRate: u16, lockstep: bool, hero: Option<u16>)
  {
    function StartError(info: MatchInfo): Option<SessionError> {
      if info.terms.tickRate != tickRate || info.terms.lockstep != lockstep || slot !in info.terms.roster ||
         (hero.Some? && info.terms.roster[slot].hero != hero.value)
      then Some(StartMismatch)
      else if !info.sound then Some(Unsound)
      else if !info.terms.roster[slot].playable then Some(Unplayable)
      else None
    }
  }

  type Landscape = (u16, seq<Vec2>)

  function LandscapeOf(terms: Terms): Landscape { (terms.map_, terms.trees) }

  datatype SeatState = SeatState(seated: Option<Seated>, policy: AckPolicy, session: Option<State>, beforeStart: nat,
                                 resuming: bool, scenery: Option<Landscape>, sceneryOnConnection: bool)
  {
    ghost predicate Valid() { session.Some? ==> session.value.Valid() }

    function StartError(info: MatchInfo): Option<SessionError> {
      if scenery.Some? && scenery.value != LandscapeOf(info.terms) then Some(OtherScenery)
      else if seated.Some? then seated.value.StartError(info)
      else if !info.sound then Some(Unsound)
      else None
    }

    function SceneryError(told: Landscape): Option<SessionError> {
      if sceneryOnConnection then Some(SceneryTwice)
      else if scenery.Some? && scenery.value != told then Some(OtherScenery)
      else None
    }

    /** The session the match start opens. */
    function Opened(terms: Terms): (s: State)
      ensures s.Valid()
    {
      if seated == None then Opening(terms, policy, None)
      else Opening(terms, policy, Some(seated.value.slot)).Bind(seated.value.player)
    }

    function Lobby(msg: Message): (r: (SeatState, Result<Told, SessionError>))
      requires session == None
      ensures r.0.Valid()
    {
      if msg.Ping? || msg.SayRefused? then (this, Ok(Passed(false)))
      else if msg.Heard? then (this, Ok(if msg.fits then Passed(false) else Unheard))
      else
        var s := this.(beforeStart := beforeStart + 1);
        if s.beforeStart > MAX_MESSAGES_BEFORE_MATCH_START then (s, Err(TooManyMessages))
        else
          match msg
          case MatchStart(info) =>
            if StartError(info).Some? then (s, Err(StartError(info).value))
            else (s.(session := Some(Opened(info.terms))), Ok(Started))
          case Snapshot(_) => (s, Err(BeforeMatchStart))
          case Events(_, _) => (s, Err(BeforeMatchStart))
          case OrderRejected(_) => (s, Err(BeforeMatchStart))
          case MatchOver => (s, Err(BeforeMatchStart))
          case WireMismatch => (s, Err(WireDiffers))
          case Refused => (s, Err(TurnedAway))
          case Compressed => (s, Err(Unpacked))
          case Welcome(player, slot) =>
            (s.(sceneryOnConnection := false,
                seated := if seated.Some? && slot.Some? then Some(seated.value.(player := player, slot := slot.value))
                  else seated),
             Ok(Welcomed(slot)))
          case Scenery(map_, trees) =>
            if SceneryError((map_, trees)).Some? then (s, Err(SceneryError((map_, trees)).value))
            else (s.(scenery := Some((map_, trees)), sceneryOnConnection := true), Ok(Passed(true)))
          case LobbyState(sound) => if sound then (s, Ok(Passed(true))) else (s, Err(Unsound))
          case _ => (s, Ok(Passed(true)))
    }

    function InMatch(msg: Message, facts: Facts): (r: (SeatState, Result<Told, SessionError>))
      requires Valid() && session.Some?
      ensures r.0.Valid()
    {
      var s := session.value;
      if msg.Welcome? then
        if msg.slot != s.owner then (this, Err(OtherSeat))
        else (this.(seated := if seated.Some? then Some(seated.value.(player := msg.player)) else None,
                    session := Some(s.Bind(msg.player)), resuming := true),
              Ok(Welcomed(msg.slot)))
      else if msg.MatchStart? && resuming then
        if !msg.info.sound then (this, Err(Unsound))
        else if msg.info.terms != s.terms then (this, Err(OtherMatch))
        else
          var (t, r) := s.Resume(facts);
          (this.(session := Some(t), resuming := false), if r.Ok? then Ok(Resumed(r.value)) else Err(r.error))
      else
        var (t, r) := s.Take(msg);
        (this.(session := Some(t)), r)
    }

    /** `facts` are read only where a restart gives orders again. */
    function Ingest(msg: Message, facts: Facts): (r: (SeatState, Result<Told, SessionError>))
      requires Valid()
      ensures r.0.Valid()
    {
      if session.Some? then InMatch(msg, facts) else Lobby(msg)
    }
  }

  function Joining(seated: Option<Seated>, policy: AckPolicy): SeatState {
    SeatState(seated, policy, None, 0, false, None, false)
  }

  class Seat {
    const policy: AckPolicy
    var seated: Option<Seated>
    var session: ClientSession?
    var beforeStart: nat
    var resuming: bool
    var scenery: Option<Landscape>
    var sceneryOnConnection: bool

    ghost function Repr(): set<object> reads this {
      if session == null then {this} else {this, session, session.ledger, session.waits, session.confirmations}
    }

    ghost function Now(): SeatState reads this, Repr() {
      var inMatch := if session == null then None else Some(session.Now());
      SeatState(seated, policy, inMatch, beforeStart, resuming, scenery, sceneryOnConnection)
    }

    ghost predicate Valid() reads this, Repr() { Now().Valid() && (session != null ==> session.policy == policy) }

    constructor (seated: Option<Seated>, policy: AckPolicy)
      ensures Now() == Joining(seated, policy) && Valid() && Repr() == {this}
    {
      this.seated := seated;
      this.policy := policy;
      session := null;
      beforeStart := 0;
      resuming := false;
      scenery := None;
      sceneryOnConnection := false;
    }

    method Ingest(msg: Message, facts: Facts) returns (r: Result<Told, SessionError>)
      requires Valid()
      modifies this, Repr()
      ensures Valid() && fresh(Repr() - old(Repr()))
      ensures Now() == old(Now()).Ingest(msg, facts).0 && r == old(Now()).Ingest(msg, facts).1
    {
      hide State.Take, State.Resume, State.Bind, State.Valid;
      if session != null {
        r := IngestStarted(msg, facts);
      } else {
        r := IngestLobby(msg);
      }
    }

    method IngestLobby(msg: Message) returns (r: Result<Told, SessionError>)
      requires Valid() && session == null
      modifies this
      ensures Valid() && fresh(Repr() - {this})
      ensures Now() == old(Now()).Lobby(msg).0 && r == old(Now()).Lobby(msg).1
    {
      hide State.Bind, State.Valid;
      if msg.Ping? || msg.SayRefused? {
        return Ok(Passed(false));
      }
      if msg.Heard? {
        return Ok(if msg.fits then Passed(false) else Unheard);
      }
      beforeStart := beforeStart + 1;
      if beforeStart > MAX_MESSAGES_BEFORE_MATCH_START {
        return Err(TooManyMessages);
      }
      match msg {
        case MatchStart(info) => r := Start(info);
        case WireMismatch => r := Err(WireDiffers);
        case Refused => r := Err(TurnedAway);
        case Compressed => r := Err(Unpacked);
        case Welcome(player, slot) =>
          sceneryOnConnection := false;
          if seated.Some? && slot.Some? {
            seated := Some(seated.value.(player := player, slot := slot.value));
          }
          r := Ok(Welcomed(slot));
        case Scenery(map_, trees) => r := RememberScenery((map_, trees));
        case LobbyState(sound) => r := if sound then Ok(Passed(true)) else Err(Unsound);
        case _ => r := if msg.Snapshot? || msg.Events? || msg.OrderRejected? || msg.MatchOver?
          then Err(BeforeMatchStart) else Ok(Passed(true));
      }
    }

    method Start(info: MatchInfo) returns (r: Result<Told, SessionError>)
      requires Valid() && session == null
      modifies this`session
      ensures Valid() && fresh(Repr() - {this})
      ensures var error := old(Now()).StartError(info);
              if error.Some? then Now() == old(Now()) && r == Err(error.value)
              else Now() == old(Now()).(session := Some(old(Now()).Opened(info.terms))) && r == Ok(Started)
    {
      if scenery.Some? && scenery.value != LandscapeOf(info.terms) {
        return Err(OtherScenery);
      }
      var error := if seated.Some? then seated.value.StartError(info) else if !info.sound then Some(Unsound) else None;
      if error.Some? {
        return Err(error.value);
      }
      var made := new ClientSession(info.terms, policy, if seated.Some? then Some(seated.value.slot) else None);
      if seated.Some? {
        made.BindConnection(seated.value.player);
      }
      session := made;
      return Ok(Started);
    }

    method RememberScenery(told: Landscape) returns (r: Result<Told, SessionError>)
      modifies this`scenery, this`sceneryOnConnection
      ensures scenery == if old(Now()).SceneryError(told).Some? then old(scenery) else Some(told)
      ensures sceneryOnConnection == (old(Now()).SceneryError(told) == None || old(sceneryOnConnection))
      ensures r == if old(Now()).SceneryError(told).Some? then Err(old(Now()).SceneryError(told).value)
              else Ok(Passed(true))
    {
      if sceneryOnConnection {
        return Err(SceneryTwice);
      }
      if scenery.Some? {
        if scenery.value != told {
          return Err(OtherScenery);
        }
      } else {
        scenery := Some(told);
      }
      sceneryOnConnection := true;
      return Ok(Passed(true));
    }

    method IngestStarted(msg: Message, facts: Facts) returns (r: Result<Told, SessionError>)
      requires Valid() && session != null
      modifies this, session, session.ledger, session.waits, session.confirmations
      ensures Valid() && session == old(session)
      ensures Now() == old(Now()).InMatch(msg, facts).0 && r == old(Now()).InMatch(msg, facts).1
    {
      hide State.Take, State.Resume, State.Bind;
      if msg.Welcome? {
        if msg.slot != session.owner {
          return Err(OtherSeat);
        }
        if seated.Some? {
          seated := Some(seated.value.(player := msg.player));
        }
        session.BindConnection(msg.player);
        resuming := true;
        return Ok(Welcomed(msg.slot));
      }
      if msg.MatchStart? && resuming {
        if !msg.info.sound {
          return Err(Unsound);
        }
        if msg.info.terms != session.terms {
          return Err(OtherMatch);
        }
        resuming := false;
        var resend := session.Resume(facts);
        return if resend.Ok? then Ok(Resumed(resend.value)) else Err(resend.error);
      }
      r := session.Ingest(msg);
    }
  }
}
