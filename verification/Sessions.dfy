/**
 Browser sessions: absolute and idle expiry with a last-seen time that is written at most
 once a minute. Times are nanoseconds.

 A request reads the session row, decides, and writes in a second transaction; other
 requests may run in between.
 */
module Sessions {
  import opened Base

  const ABSOLUTE: int := 720 * MINUTE
  const IDLE: int := 30 * MINUTE
  const TOUCH: int := MINUTE

  datatype Row = Row(authenticatedAt: int, lastSeen: int, expiresAt: int, revoked: bool)

  /** `csrfOk`: no proof was required, or the header and the cookie match the session's secret. */
  datatype Request = Request(now: int, identityActive: bool, csrfOk: bool)

  /** What the read phase settles; the last two still need their write. */
  datatype Decision = Invalid | CsrfInvalid | Keep | Expire | Touch

  function NewRow(now: int): Row {
    Row(now, now, now + ABSOLUTE, false)
  }

  predicate Expired(row: Row, now: int) {
    !(row.expiresAt > now) || !(row.lastSeen + IDLE > now)
  }

  function Decide(row: Row, q: Request): Decision {
    if row.revoked || !q.identityActive then Invalid
    else if Expired(row, q.now) then Expire
    else if !q.csrfOk then CsrfInvalid
    else if !(row.lastSeen + TOUCH > q.now) then Touch
    else Keep
  }

  /** The write phase on the row as it is by then, and whether the request is accepted. */
  function Finish(row: Row, q: Request, d: Decision): (Row, bool) {
    match d
    case Invalid => (row, false)
    case CsrfInvalid => (row, false)
    case Keep => (row, true)
    case Expire => (row.(revoked := true), false)
    case Touch => if row.revoked then (row, false) else (row.(lastSeen := q.now), true)
  }

  /** A request that runs undisturbed. */
  function Serve(row: Row, q: Request): (Row, bool) {
    Finish(row, q, Decide(row, q))
  }

  /** The session part of the authorization gate behind every action. */
  predicate GateOpen(row: Row, identityActive: bool, now: int) {
    identityActive && row.authenticatedAt <= now && row.expiresAt > now && row.lastSeen + IDLE > now
  }

  /** Everything the session and the request must bring. */
  predicate Admits(row: Row, q: Request) {
    && !row.revoked && q.identityActive && q.csrfOk
    && q.now < row.expiresAt && q.now < row.lastSeen + IDLE
  }

  /**
   An undisturbed request is accepted if and only if the session is open, the identity active, the
   proof good, and neither expiry reached. An accepted one is recorded as seen if the last record is a
   minute old; of the others only one that finds the session expired changes anything, by closing it.
   */
  lemma ServedIff(row: Row, q: Request)
    ensures Serve(row, q).1 <==> Admits(row, q)
    ensures Serve(row, q).0 ==
      if Admits(row, q) then (if q.now >= row.lastSeen + TOUCH then row.(lastSeen := q.now) else row)
      else if q.identityActive && Expired(row, q.now) then row.(revoked := true)
      else row
  {
  }

  /** An accepted request passes the gate at the same instant. */
  lemma AcceptedPassesGate(row: Row, q: Request)
    requires row.authenticatedAt <= q.now && Serve(row, q).1
    ensures GateOpen(Serve(row, q).0, q.identityActive, q.now)
  {
  }

  // ----- Undisturbed runs -------------------------------------------------

  /** A request, or a revocation by logout or administration. */
  datatype Event = Ask(request: Request) | Revoke

  function Next(row: Row, e: Event): Row {
    match e
    case Ask(q) => Serve(row, q).0
    case Revoke => row.(revoked := true)
  }

  function Run(row: Row, events: seq<Event>): Row {
    if events == [] then row else Next(Run(row, events[..|events| - 1]), events[|events| - 1])
  }

  predicate AcceptedAt(row: Row, events: seq<Event>, i: nat)
    requires i < |events|
  {
    events[i].Ask? && Serve(Run(row, events[..i]), events[i].request).1
  }

  /** The time of the last request the session accepted, or of its row's last-seen time before any. */
  function LastAccepted(row: Row, events: seq<Event>): int {
    if events == [] then row.lastSeen
    else
      var n := |events| - 1;
      if AcceptedAt(row, events, n) then events[n].request.now else LastAccepted(row, events[..n])
  }

  /** The stored last-seen time is never a touch interval behind. */
  lemma {:induction false} SeenLagsLessThanTouch(row: Row, events: seq<Event>)
    ensures Run(row, events).lastSeen + TOUCH > LastAccepted(row, events)
  {
    if events != [] {
      SeenLagsLessThanTouch(row, events[..|events| - 1]);
    }
  }

  ghost predicate ClockNeverGoesBack(events: seq<Event>, from: int) {
    && (forall i :: 0 <= i < |events| && events[i].Ask? ==> from <= events[i].request.now)
    && (forall i, j :: 0 <= i <= j < |events| && events[i].Ask? && events[j].Ask? ==>
          events[i].request.now <= events[j].request.now)
  }

  lemma {:induction false} SeenInThePast(row: Row, events: seq<Event>, now: int)
    requires ClockNeverGoesBack(events, row.lastSeen) && row.lastSeen <= now
    requires forall i :: 0 <= i < |events| && events[i].Ask? ==> events[i].request.now <= now
    ensures Run(row, events).lastSeen <= now
  {
    if events != [] {
      SeenInThePast(row, events[..|events| - 1], now);
    }
  }

  /** While the clock moves forward, the stored last-seen time is never ahead. */
  lemma {:induction false} SeenNeverLeads(row: Row, events: seq<Event>)
    requires ClockNeverGoesBack(events, row.lastSeen)
    ensures Run(row, events).lastSeen <= LastAccepted(row, events)
  {
    if events != [] {
      var n := |events| - 1;
      SeenNeverLeads(row, events[..n]);
      if AcceptedAt(row, events, n) {
        SeenInThePast(row, events[..n], events[n].request.now);
      }
    }
  }

  /** The request of event `i` may be accepted at all: its session is open, its identity active, its proof good. */
  predicate Admissible(row: Row, events: seq<Event>, i: nat)
    requires i < |events|
  {
    && events[i].Ask? && events[i].request.identityActive && events[i].request.csrfOk
    && !Run(row, events[..i]).revoked && events[i].request.now < row.expiresAt
  }

  /**
   Undisturbed, coarse touching stays within one minute of exact idle tracking. For any clock, an
   admissible request less than 29 minutes after the last accepted one is accepted; with a forward
   clock, one 30 minutes or more after it never is.
   */
  lemma IdleIsExactToTheMinute(row: Row, events: seq<Event>, i: nat)
    requires i < |events|
    ensures Admissible(row, events, i) && events[i].request.now < LastAccepted(row, events[..i]) + IDLE - TOUCH ==>
      AcceptedAt(row, events, i)
    ensures ClockNeverGoesBack(events, row.lastSeen) && AcceptedAt(row, events, i) ==>
      events[i].request.now < LastAccepted(row, events[..i]) + IDLE
  {
    SeenLagsLessThanTouch(row, events[..i]);
    RevokedStays(row, events[..i]);
    if ClockNeverGoesBack(events, row.lastSeen) {
      SeenNeverLeads(row, events[..i]);
    }
  }

  /** What ends a session: a revocation, or a request at the absolute expiry or after 29 idle minutes. */
  predicate Ends(row: Row, events: seq<Event>, i: nat)
    requires i < |events|
  {
    match events[i]
    case Revoke => true
    case Ask(q) =>
      q.identityActive && (q.now >= row.expiresAt || q.now >= LastAccepted(row, events[..i]) + IDLE - TOUCH)
  }

  /** Undisturbed, a session is closed only by such an event, so one in steady use stays open until it expires. */
  lemma {:induction false} ClosedForCause(row: Row, events: seq<Event>)
    requires !row.revoked && Run(row, events).revoked
    ensures exists i :: 0 <= i < |events| && Ends(row, events, i)
  {
    var n := |events| - 1;
    if Run(row, events[..n]).revoked {
      ClosedForCause(row, events[..n]);
      var i :| 0 <= i < n && Ends(row, events[..n], i);
      assert events[..n][..i] == events[..i];
      assert Ends(row, events, i);
    } else {
      SeenLagsLessThanTouch(row, events[..n]);
      RevokedStays(row, events[..n]);
      assert Ends(row, events, n);
    }
  }

  lemma {:induction false} RevokedStays(row: Row, events: seq<Event>)
    ensures Run(row, events).expiresAt == row.expiresAt && (row.revoked ==> Run(row, events).revoked)
  {
    if events != [] {
      RevokedStays(row, events[..|events| - 1]);
    }
  }

  lemma {:induction false} RunConcat(row: Row, xs: seq<Event>, ys: seq<Event>)
    ensures Run(row, xs + ys) == Run(Run(row, xs), ys)
    decreases |ys|
  {
    hide Next;
    if ys == [] {
      assert xs + ys == xs;
    } else {
      assert (xs + ys)[..|xs + ys| - 1] == xs + ys[..|ys| - 1];
      RunConcat(row, xs, ys[..|ys| - 1]);
    }
  }

  /**
   In an undisturbed run, once a request of an active identity found the session expired, or the
   session was revoked, no later request is accepted; and none at all at or after the absolute expiry.
   */
  lemma ExpiryIsFinal(row: Row, events: seq<Event>, i: nat, j: nat)
    requires i < j < |events|
    requires events[i].Revoke? || (events[i].request.identityActive &&
      Expired(Run(row, events[..i]), events[i].request.now))
    ensures !AcceptedAt(row, events, j)
  {
    assert events[..i + 1][..i] == events[..i];
    assert Run(row, events[..i + 1]).revoked;
    assert events[..j] == events[..i + 1] + events[i + 1..j];
    RunConcat(row, events[..i + 1], events[i + 1..j]);
    RevokedStays(Run(row, events[..i + 1]), events[i + 1..j]);
  }

  lemma NeverPastAbsoluteExpiry(row: Row, events: seq<Event>, i: nat)
    requires i < |events| && AcceptedAt(row, events, i)
    ensures events[i].request.now < row.expiresAt
  {
    RevokedStays(row, events[..i]);
  }

  // ----- Overlapping requests ---------------------------------------------

  datatype Pending = Pending(request: Request, decision: Decision)

  /** Reads and writes of different requests interleave freely. */
  datatype Phase = Load(client: Id, request: Request) | Write(client: Id) | RevokeNow

  /** `accepted` lists the times of the accepted requests in the order in which they were accepted. */
  datatype System = System(row: Row, pending: map<Id, Pending>, accepted: seq<int>)

  function PhaseNext(s: System, p: Phase): System {
    match p
    case Load(c, q) => s.(pending := s.pending[c := Pending(q, Decide(s.row, q))])
    case Write(c) =>
      if c !in s.pending then s
      else
        var p := s.pending[c];
        var (row, ok) := Finish(s.row, p.request, p.decision);
        System(row, s.pending - {c}, if ok then s.accepted + [p.request.now] else s.accepted)
    case RevokeNow => s.(row := s.row.(revoked := true))
  }

  function PhaseRun(row: Row, phases: seq<Phase>): System {
    if phases == [] then System(row, map[], [])
    else PhaseNext(PhaseRun(row, phases[..|phases| - 1]), phases[|phases| - 1])
  }

  /** A time at which the user is known to have been active: the login or an accepted request. */
  predicate Activity(start: int, accepted: seq<int>, t: int) {
    t == start || t in accepted
  }

  /** `now` is before the absolute expiry and less than the idle time after some such activity. */
  ghost predicate Justified(start: int, accepted: seq<int>, expiresAt: int, now: int) {
    now < expiresAt && exists t :: Activity(start, accepted, t) && now < t + IDLE
  }

  /** Every accepted request is justified by the login and the requests accepted before it. */
  ghost predicate AllJustified(start: int, accepted: seq<int>, expiresAt: int) {
    forall k :: 0 <= k < |accepted| ==> Justified(start, accepted[..k], expiresAt, accepted[k])
  }

  ghost predicate SystemInv(row0: Row, s: System) {
    && s.row.expiresAt == row0.expiresAt
    && Activity(row0.lastSeen, s.accepted, s.row.lastSeen)
    && (forall c :: c in s.pending && s.pending[c].decision in {Keep, Touch} ==>
          Justified(row0.lastSeen, s.accepted, row0.expiresAt, s.pending[c].request.now))
    && AllJustified(row0.lastSeen, s.accepted, row0.expiresAt)
  }

  lemma JustifiedGrows(start: int, accepted: seq<int>, more: int, expiresAt: int, now: int)
    requires Justified(start, accepted, expiresAt, now)
    ensures Justified(start, accepted + [more], expiresAt, now)
  {
    var t :| Activity(start, accepted, t) && now < t + IDLE;
    assert Activity(start, accepted + [more], t);
  }

  lemma AcceptJustified(start: int, accepted: seq<int>, expiresAt: int, now: int)
    requires AllJustified(start, accepted, expiresAt) && Justified(start, accepted, expiresAt, now)
    ensures AllJustified(start, accepted + [now], expiresAt)
  {
    var accepted' := accepted + [now];
    forall k | 0 <= k < |accepted'| ensures Justified(start, accepted'[..k], expiresAt, accepted'[k]) {
      assert accepted'[..k] == accepted[..k];
      assert k == |accepted| ==> accepted[..k] == accepted;
    }
  }

  lemma LoadKeepsInv(row0: Row, s: System, c: Id, q: Request)
    requires SystemInv(row0, s)
    ensures SystemInv(row0, PhaseNext(s, Load(c, q)))
  {
    if Decide(s.row, q) in {Keep, Touch} {
      assert q.now < row0.expiresAt && q.now < s.row.lastSeen + IDLE;
      assert Justified(row0.lastSeen, s.accepted, row0.expiresAt, q.now);
    }
    hide Justified, AllJustified;
  }

  lemma WriteKeepsInv(row0: Row, s: System, c: Id)
    requires SystemInv(row0, s)
    ensures SystemInv(row0, PhaseNext(s, Write(c)))
  {
    hide Justified, AllJustified;
    if c in s.pending {
      var p := s.pending[c];
      if Finish(s.row, p.request, p.decision).1 {
        AcceptJustified(row0.lastSeen, s.accepted, row0.expiresAt, p.request.now);
        forall o | o in s.pending && s.pending[o].decision in {Keep, Touch}
          ensures Justified(row0.lastSeen, s.accepted + [p.request.now], row0.expiresAt, s.pending[o].request.now)
        {
          JustifiedGrows(row0.lastSeen, s.accepted, p.request.now, row0.expiresAt, s.pending[o].request.now);
        }
      }
    }
  }

  /**
   However requests overlap, each accepted one came before the absolute expiry and less than
   the idle time after the login or after a request that was accepted earlier.
   */
  lemma {:induction false} OverlapNeverExtendsIdle(row: Row, phases: seq<Phase>)
    ensures SystemInv(row, PhaseRun(row, phases))
    ensures AllJustified(row.lastSeen, PhaseRun(row, phases).accepted, row.expiresAt)
  {
    if phases != [] {
      var s, p := PhaseRun(row, phases[..|phases| - 1]), phases[|phases| - 1];
      OverlapNeverExtendsIdle(row, phases[..|phases| - 1]);
      match p
      case Load(c, q) => LoadKeepsInv(row, s, c, q);
      case Write(c) => WriteKeepsInv(row, s, c);
      case RevokeNow =>
    }
  }

  /** Phase `i` read a request of time `now` that the row of that moment admitted. */
  ghost predicate AdmittedBy(row: Row, phases: seq<Phase>, i: nat, now: int)
    requires i < |phases|
  {
    phases[i].Load? && phases[i].request.now == now && Admits(PhaseRun(row, phases[..i]).row, phases[i].request)
  }

  ghost predicate WasAdmitted(row: Row, phases: seq<Phase>, now: int) {
    exists i :: 0 <= i < |phases| && AdmittedBy(row, phases, i, now)
  }

  lemma LongerWasAdmitted(row: Row, phases: seq<Phase>, n: nat, now: int)
    requires n <= |phases| && WasAdmitted(row, phases[..n], now)
    ensures WasAdmitted(row, phases, now)
  {
    var i :| 0 <= i < n && AdmittedBy(row, phases[..n], i, now);
    assert phases[..n][..i] == phases[..i];
    assert AdmittedBy(row, phases, i, now);
  }

  /**
   However requests overlap, every accepted one, and every pending one that may still be, was read
   from an open, unexpired session with an active identity and a good proof.
   */
  lemma {:induction false} AcceptedWereAdmitted(row: Row, phases: seq<Phase>)
    ensures var s := PhaseRun(row, phases);
      && (forall t :: t in s.accepted ==> WasAdmitted(row, phases, t))
      && (forall c :: c in s.pending && s.pending[c].decision in {Keep, Touch} ==>
            WasAdmitted(row, phases, s.pending[c].request.now))
  {
    if phases != [] {
      var n := |phases| - 1;
      var s0, s, p := PhaseRun(row, phases[..n]), PhaseRun(row, phases), phases[n];
      AcceptedWereAdmitted(row, phases[..n]);
      if p.Load? && Decide(s0.row, p.request) in {Keep, Touch} {
        assert AdmittedBy(row, phases, n, p.request.now);
      }
      hide WasAdmitted;
      forall t | t in s0.accepted ensures WasAdmitted(row, phases, t) {
        LongerWasAdmitted(row, phases, n, t);
      }
      forall c | c in s0.pending && s0.pending[c].decision in {Keep, Touch}
        ensures WasAdmitted(row, phases, s0.pending[c].request.now)
      {
        LongerWasAdmitted(row, phases, n, s0.pending[c].request.now);
      }
      assert forall t :: t in s.accepted ==>
        t in s0.accepted || (p.Write? && p.client in s0.pending && s0.pending[p.client].decision in {Keep, Touch}
                             && t == s0.pending[p.client].request.now);
    }
  }

  /** A request without a good proof or an active identity never moves the last-seen time, whenever it is written. */
  lemma UnprovenChangesNothing(row: Row, now: Row, q: Request)
    requires !q.csrfOk || !q.identityActive
    ensures var (row', accepted) := Finish(now, q, Decide(row, q));
      !accepted && (row' == now || (q.identityActive && Expired(row, q.now) && row' == now.(revoked := true)))
  {
  }

  /** A client whose read phase finds the session revoked is never accepted, whatever interleaves. */
  lemma {:induction false} RevocationReachesLaterReads(row: Row, phases: seq<Phase>, i: nat, j: nat, n: nat)
    requires i < j < n <= |phases| && PhaseRun(row, phases[..i + 1]).row.revoked && phases[j].Load?
    requires forall k :: j < k < n ==> !(phases[k].Load? && phases[k].client == phases[j].client)
    ensures var s := PhaseRun(row, phases[..n]);
      s.row.revoked && (phases[j].client in s.pending ==> s.pending[phases[j].client].decision == Invalid)
  {
    var s := PhaseRun(row, phases[..n - 1]);
    assert phases[..n][..n - 1] == phases[..n - 1];
    RevokedFrom(row, phases, i + 1, n - 1);
    if n - 1 > j {
      RevocationReachesLaterReads(row, phases, i, j, n - 1);
    }
  }

  lemma {:induction false} RevokedFrom(row: Row, phases: seq<Phase>, m: nat, n: nat)
    requires m <= n <= |phases| && PhaseRun(row, phases[..m]).row.revoked
    ensures PhaseRun(row, phases[..n]).row.revoked
  {
    if m < n {
      assert phases[..n][..n - 1] == phases[..n - 1];
      RevokedFrom(row, phases, m, n - 1);
    }
  }

  /** A logout closes the session for good, whatever requests are under way. */
  lemma LogoutCloses(row: Row, phases: seq<Phase>, i: nat)
    requires i < |phases| && phases[i].RevokeNow?
    ensures PhaseRun(row, phases).row.revoked
  {
    assert phases[..i + 1][..i] == phases[..i];
    RevokedFrom(row, phases, i + 1, |phases|);
    assert phases[..|phases|] == phases;
  }

  /**
   A session that starts now admits its first request for 30 minutes, and however its requests overlap,
   none at or after twelve hours.
   */
  lemma NewSessionsLast(start: int, phases: seq<Phase>, q: Request)
    ensures Serve(NewRow(start), q).1 <==> q.identityActive && q.csrfOk && q.now < start + 30 * MINUTE
    ensures forall t :: t in PhaseRun(NewRow(start), phases).accepted ==> t < start + 12 * 60 * MINUTE
  {
    OverlapNeverExtendsIdle(NewRow(start), phases);
    ServedIff(NewRow(start), q);
    var accepted := PhaseRun(NewRow(start), phases).accepted;
    forall t | t in accepted ensures t < start + 12 * 60 * MINUTE {
      var k :| 0 <= k < |accepted| && accepted[k] == t;
      assert Justified(start, accepted[..k], NewRow(start).expiresAt, accepted[k]);
    }
  }

  // ----- The repository's method ------------------------------------------

  class Session {
    var row: Row

    constructor (now: int)
      ensures row == NewRow(now)
    {
      row := Row(now, now, now + ABSOLUTE, false);
    }

    /** The read transaction and the checks on what it read. */
    method Read(q: Request) returns (d: Decision)
      ensures d == Decide(row, q)
    {
      if row.revoked || !q.identityActive {
        return Invalid;
      }
      var expired := false;
      if !(row.expiresAt > q.now) {
        expired := true;
      } else if !(row.lastSeen + IDLE > q.now) {
        expired := true;
      }
      if expired {
        return Expire;
      }
      if !q.csrfOk {
        return CsrfInvalid;
      }
      return if !(row.lastSeen + TOUCH > q.now) then Touch else Keep;
    }

    /** The guarded write that follows, on the row as it is by then. */
    method Write(q: Request, d: Decision) returns (accepted: bool)
      modifies this
      ensures (row, accepted) == Finish(old(row), q, d)
    {
      accepted := d == Keep;
      if d == Expire && !row.revoked {
        row := row.(revoked := true);
      } else if d == Touch && !row.revoked {
        row := row.(lastSeen := q.now);
        accepted := true;
      }
    }

    /** Both phases; `Read` and `Write` of other requests may come between them. */
    method Authenticate(q: Request) returns (accepted: bool)
      modifies this
      ensures (row, accepted) == Serve(old(row), q)
    {
      var d := Read(q);
      accepted := Write(q, d);
    }
  }
}
