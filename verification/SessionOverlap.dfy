/**
 Idle expiry when requests overlap. The write that records a request as seen is not guarded by
 time, so one that waited for the writer can move the last-seen time back.
 */
module SessionOverlap {
  import opened Base
  import opened Sessions

  // ----- Touches in order -------------------------------------------------

  /** The phase lands a touch although the session was seen later than the touching request. */
  predicate LateTouch(s: System, p: Phase) {
    && p.Write? && p.client in s.pending && s.pending[p.client].decision == Touch
    && !s.row.revoked && s.pending[p.client].request.now < s.row.lastSeen
  }

  ghost predicate InOrder(row: Row, phases: seq<Phase>) {
    forall i :: 0 <= i < |phases| ==> !LateTouch(PhaseRun(row, phases[..i]), phases[i])
  }

  /** The stored time is less than a touch interval behind every activity, and behind what a pending request may add. */
  ghost predicate Abreast(start: int, s: System) {
    && (forall t :: Activity(start, s.accepted, t) ==> t < s.row.lastSeen + TOUCH)
    && (forall c :: c in s.pending && s.pending[c].decision == Keep ==>
          s.pending[c].request.now < s.row.lastSeen + TOUCH)
  }

  lemma PhaseKeepsAbreast(start: int, s: System, p: Phase)
    requires Abreast(start, s) && !LateTouch(s, p)
    ensures Abreast(start, PhaseNext(s, p))
  {
    var s' := PhaseNext(s, p);
    forall t | Activity(start, s'.accepted, t) ensures t < s'.row.lastSeen + TOUCH {
      assert Activity(start, s.accepted, t) || (p.Write? && t == s.pending[p.client].request.now);
    }
  }

  lemma PrefixInOrder(row: Row, phases: seq<Phase>, n: nat)
    requires InOrder(row, phases) && n <= |phases|
    ensures InOrder(row, phases[..n])
  {
    hide LateTouch;
    forall i | 0 <= i < n ensures !LateTouch(PhaseRun(row, phases[..n][..i]), phases[..n][i]) {
      assert phases[..n][..i] == phases[..i];
    }
  }

  lemma {:induction false} InOrderStaysAbreast(row: Row, phases: seq<Phase>)
    requires InOrder(row, phases)
    ensures Abreast(row.lastSeen, PhaseRun(row, phases))
  {
    if phases != [] {
      var n := |phases| - 1;
      PrefixInOrder(row, phases, n);
      InOrderStaysAbreast(row, phases[..n]);
      hide Abreast, LateTouch;
      PhaseKeepsAbreast(row.lastSeen, PhaseRun(row, phases[..n]), phases[n]);
    }
  }

  // ----- The 29-minute promise --------------------------------------------

  /** A request that nothing but idleness could refuse. */
  predicate Due(row: Row, q: Request) {
    q.identityActive && q.csrfOk && !row.revoked && q.now < row.expiresAt
  }

  /** Less than 29 minutes after the login or some accepted request. */
  ghost predicate Recent(start: int, accepted: seq<int>, now: int) {
    exists t :: Activity(start, accepted, t) && now < t + IDLE - TOUCH
  }

  /** Every such request that reads the row now is let through. */
  ghost predicate KeepsPromise(start: int, s: System) {
    forall q :: Due(s.row, q) && Recent(start, s.accepted, q.now) ==> Decide(s.row, q) in {Keep, Touch}
  }

  /** No activity is more than a touch interval ahead, unless the absolute expiry comes first anyway. */
  ghost predicate NotLeftBehind(start: int, s: System) {
    || s.row.revoked || s.row.expiresAt <= s.row.lastSeen + IDLE
    || forall t :: Activity(start, s.accepted, t) ==> t <= s.row.lastSeen + TOUCH
  }

  /** In any state, the promise is kept exactly when the stored time is not left behind. */
  lemma PromiseKeptIff(start: int, s: System)
    ensures KeepsPromise(start, s) <==> NotLeftBehind(start, s)
  {
    if !NotLeftBehind(start, s) {
      var t :| Activity(start, s.accepted, t) && t > s.row.lastSeen + TOUCH;
      var q := Request(s.row.lastSeen + IDLE, true, true);
      assert Due(s.row, q) && Recent(start, s.accepted, q.now);
      assert Decide(s.row, q) == Expire;
    }
  }

  /** Of one request: its read is phase `i`, its write phase `j`, and its client does nothing in between. */
  predicate Serves(phases: seq<Phase>, i: nat, j: nat) {
    && i < j < |phases| && phases[i].Load? && phases[j] == Write(phases[i].client)
    && forall k :: i < k < j ==> !ActsFor(phases[k], phases[i].client)
  }

  predicate ActsFor(p: Phase, client: Id) {
    !p.RevokeNow? && p.client == client
  }

  lemma {:induction false} DecisionWaits(row: Row, phases: seq<Phase>, i: nat, n: nat)
    requires i < n <= |phases| && phases[i].Load?
    requires forall k :: i < k < n ==> !ActsFor(phases[k], phases[i].client)
    ensures var s, q := PhaseRun(row, phases[..i]), phases[i].request;
      var pending := PhaseRun(row, phases[..n]).pending;
      phases[i].client in pending && pending[phases[i].client] == Pending(q, Decide(s.row, q))
  {
    assert phases[..n][..n - 1] == phases[..n - 1];
    hide Decide, Finish;
    if n - 1 > i {
      DecisionWaits(row, phases, i, n - 1);
      assert !ActsFor(phases[n - 1], phases[i].client);
    }
  }

  /**
   However requests overlap, if no touch landed late before the request was read: it is accepted
   if it comes less than 29 minutes after the login or an accepted request and the session is
   still open when it is written. In any order of touches, it is accepted only if it comes less
   than 30 minutes after one that was accepted before it was read.
   */
  lemma OverlapIdleIsExactToTheMinute(row: Row, phases: seq<Phase>, i: nat, j: nat)
    requires Serves(phases, i, j)
    ensures var s, q := PhaseRun(row, phases[..i]), phases[i].request;
      var before, after := PhaseRun(row, phases[..j]), PhaseRun(row, phases[..j + 1]);
      && (Due(s.row, q) && Recent(row.lastSeen, s.accepted, q.now) && InOrder(row, phases[..i]) ==>
            before.row.revoked || after.accepted == before.accepted + [q.now])
      && (after.accepted != before.accepted ==>
            after.accepted == before.accepted + [q.now]
            && Justified(row.lastSeen, s.accepted, row.expiresAt, q.now))
  {
    var s, q := PhaseRun(row, phases[..i]), phases[i].request;
    DecisionWaits(row, phases, i, j);
    OverlapNeverExtendsIdle(row, phases[..i]);
    assert phases[..j + 1][..j] == phases[..j];
    if InOrder(row, phases[..i]) && Due(s.row, q) && Recent(row.lastSeen, s.accepted, q.now) {
      InOrderStaysAbreast(row, phases[..i]);
      PromiseKeptIff(row.lastSeen, s);
    }
    if Decide(s.row, q) in {Keep, Touch} {
      assert Activity(row.lastSeen, s.accepted, s.row.lastSeen) && q.now < s.row.lastSeen + IDLE;
    }
    hide Abreast, InOrder, PhaseRun;
  }

  // ----- What closes a session --------------------------------------------

  /** A revocation, or the read of a request at the absolute expiry or 29 minutes or more after every activity. */
  ghost predicate Cause(row: Row, phases: seq<Phase>, i: nat)
    requires i < |phases|
  {
    match phases[i]
    case RevokeNow => true
    case Load(_, q) =>
      q.identityActive && (q.now >= row.expiresAt || !Recent(row.lastSeen, PhaseRun(row, phases[..i]).accepted, q.now))
    case Write(_) => false
  }

  ghost predicate HasCause(row: Row, phases: seq<Phase>) {
    exists i :: 0 <= i < |phases| && Cause(row, phases, i)
  }

  /** The session is closed, or is about to be by a pending write. */
  predicate Closing(s: System) {
    s.row.revoked || exists c :: c in s.pending && s.pending[c].decision == Expire
  }

  lemma LongerHasCause(row: Row, phases: seq<Phase>, n: nat)
    requires n <= |phases| && HasCause(row, phases[..n])
    ensures HasCause(row, phases)
  {
    var i :| 0 <= i < n && Cause(row, phases[..n], i);
    assert phases[..n][..i] == phases[..i];
    hide Recent;
    assert Cause(row, phases, i);
  }

  /** If no touch landed late, a session is closed, or about to be, only for one of these causes. */
  lemma {:induction false} OverlapClosedForCause(row: Row, phases: seq<Phase>)
    requires !row.revoked && InOrder(row, phases) && Closing(PhaseRun(row, phases))
    ensures HasCause(row, phases)
  {
    var n := |phases| - 1;
    var s, p := PhaseRun(row, phases[..n]), phases[n];
    PrefixInOrder(row, phases, n);
    if Closing(s) {
      OverlapClosedForCause(row, phases[..n]);
      LongerHasCause(row, phases, n);
    } else {
      InOrderStaysAbreast(row, phases[..n]);
      OverlapNeverExtendsIdle(row, phases[..n]);
      PromiseKeptIff(row.lastSeen, s);
      OnlyCauseCloses(row, s, p);
      assert Cause(row, phases, n);
    }
  }

  lemma OnlyCauseCloses(row: Row, s: System, p: Phase)
    requires !Closing(s) && Closing(PhaseNext(s, p)) && KeepsPromise(row.lastSeen, s)
    requires s.row.expiresAt == row.expiresAt
    ensures !p.Write?
    ensures p.Load? ==>
      && p.request.identityActive
      && (p.request.now >= row.expiresAt || !Recent(row.lastSeen, s.accepted, p.request.now))
  {
    if p.Load? {
      var q := p.request;
      assert Decide(s.row, q) == Expire;
      var proven := q.(csrfOk := true);
      assert Decide(s.row, proven) == Expire;
      assert Due(s.row, proven) && Recent(row.lastSeen, s.accepted, proven.now) ==> false;
    }
  }

  // ----- Revocation is final ----------------------------------------------

  /** From a revoked session on, `s` came about with only the requests of `s0` that needed no write left to accept. */
  ghost predicate OnlyLeftovers(s0: System, s: System) {
    && s.row.revoked
    && (forall c :: c in s.pending && s.pending[c].decision == Keep ==>
          c in s0.pending && s.pending[c] == s0.pending[c])
    && |s0.accepted| <= |s.accepted| && s.accepted[..|s0.accepted|] == s0.accepted
    && (forall k :: |s0.accepted| <= k < |s.accepted| ==> Leftover(s0, s.accepted[k]))
  }

  ghost predicate Leftover(s0: System, now: int) {
    exists c :: c in s0.pending && s0.pending[c].decision == Keep && s0.pending[c].request.now == now
  }

  lemma PhaseKeepsLeftovers(s0: System, s: System, p: Phase)
    requires OnlyLeftovers(s0, s)
    ensures OnlyLeftovers(s0, PhaseNext(s, p))
  {
    if p.Write? && p.client in s.pending && s.pending[p.client].decision == Keep {
      assert Leftover(s0, s.pending[p.client].request.now);
    }
  }

  /**
   Once the row is revoked it stays so, and all that is accepted afterwards are requests that had
   been read before and needed no write.
   */
  lemma {:induction false} RevocationIsFinal(row: Row, phases: seq<Phase>, n: nat)
    requires n <= |phases| && PhaseRun(row, phases[..n]).row.revoked
    ensures OnlyLeftovers(PhaseRun(row, phases[..n]), PhaseRun(row, phases))
    decreases |phases|
  {
    if n == |phases| {
      assert phases[..n] == phases;
    } else {
      var m := |phases| - 1;
      assert phases[..m][..n] == phases[..n];
      RevocationIsFinal(row, phases[..m], n);
      hide OnlyLeftovers;
      PhaseKeepsLeftovers(PhaseRun(row, phases[..n]), PhaseRun(row, phases[..m]), phases[m]);
    }
  }

  // ----- What a late touch does -------------------------------------------

  lemma RunMore(row: Row, phases: seq<Phase>, p: Phase)
    ensures PhaseRun(row, phases + [p]) == PhaseNext(PhaseRun(row, phases), p)
  {
    hide PhaseNext;
    assert (phases + [p])[..|phases|] == phases;
  }

  /**
   Whenever a touch lands more than a touch interval behind an accepted request, a later request
   is refused and closes the session, although it comes less than 29 minutes after that request.
   */
  lemma LateTouchBreaksPromise(row: Row, phases: seq<Phase>, late: Phase, t: int, client: Id)
    requires var s := PhaseRun(row, phases);
      && LateTouch(s, late) && t in s.accepted && s.pending[late.client].request.now + TOUCH < t
      && s.pending[late.client].request.now + IDLE < row.expiresAt
    ensures var s := PhaseRun(row, phases);
      var q := Request(s.pending[late.client].request.now + IDLE, true, true);
      && q.now < t + IDLE - TOUCH && Due(PhaseRun(row, phases + [late]).row, q)
      && PhaseRun(row, phases + [late] + [Load(client, q)] + [Write(client)]).row.revoked
  {
    OverlapNeverExtendsIdle(row, phases);
    var q := Request(PhaseRun(row, phases).pending[late.client].request.now + IDLE, true, true);
    RunMore(row, phases, late);
    RunMore(row, phases + [late], Load(client, q));
    RunMore(row, phases + [late] + [Load(client, q)], Write(client));
    hide PhaseRun;
  }

  function At(seconds: int): Request {
    Request(seconds * (MINUTE / 60), true, true)
  }

  /** For example: a touch of minute 1 that lands after one of minute 28 closes the session at 31:30. */
  const LATE: seq<Phase> :=
    [Load(0, At(60))] + [Load(1, At(1_680))] + [Write(1)] + [Write(0)] + [Load(2, At(1_890))] + [Write(2)]

  lemma LateTouchExample()
    ensures var s := PhaseRun(NewRow(0), LATE);
      s.row.revoked && s.accepted == [At(1_680).now, At(60).now] && At(1_890).now - At(1_680).now < 4 * MINUTE
  {
    var p1 := [Load(0, At(60))];
    var p2 := p1 + [Load(1, At(1_680))];
    var p3 := p2 + [Write(1)];
    var p4 := p3 + [Write(0)];
    var p5 := p4 + [Load(2, At(1_890))];
    RunMore(NewRow(0), [], Load(0, At(60)));
    assert [] + p1 == p1;
    RunMore(NewRow(0), p1, Load(1, At(1_680)));
    RunMore(NewRow(0), p2, Write(1));
    RunMore(NewRow(0), p3, Write(0));
    RunMore(NewRow(0), p4, Load(2, At(1_890)));
    RunMore(NewRow(0), p5, Write(2));
    hide PhaseRun;
  }

  /** A request that noticed the expiry has not closed the session yet: another one may be accepted before it does. */
  const NOTICED: seq<Phase> := [Load(0, At(1_799))] + [Load(1, At(1_800))]
  const REVIVED: seq<Phase> := NOTICED + [Write(0)] + [Load(2, At(1_801))] + [Write(2)]

  lemma NoticeIsNotFinal()
    ensures var s := PhaseRun(NewRow(0), NOTICED); 1 in s.pending && s.pending[1].decision == Expire
    ensures var s := PhaseRun(NewRow(0), REVIVED); !s.row.revoked && s.accepted == [At(1_799).now, At(1_801).now]
    ensures PhaseRun(NewRow(0), REVIVED + [Write(1)]).row.revoked
  {
    var p1 := [Load(0, At(1_799))];
    var p3 := NOTICED + [Write(0)];
    var p4 := p3 + [Load(2, At(1_801))];
    RunMore(NewRow(0), [], Load(0, At(1_799)));
    assert [] + p1 == p1;
    RunMore(NewRow(0), p1, Load(1, At(1_800)));
    RunMore(NewRow(0), NOTICED, Write(0));
    RunMore(NewRow(0), p3, Load(2, At(1_801)));
    RunMore(NewRow(0), p4, Write(2));
    RunMore(NewRow(0), REVIVED, Write(1));
    hide PhaseRun;
  }
}
