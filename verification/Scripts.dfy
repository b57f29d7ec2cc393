/** The client program on any connection, broken or not: where it stands after the outcomes of
    its calls, and that its calls are those of blocking methods made one after the other. */
module Scripts {
  import opened Bytes
  import opened Protocol
  import opened Application
  import opened Deployment
  import opened Retry
  import X = Exchange
  import A = Alignment

  // ---- where the program stands ------------------------------------------------------

  /** Outcomes that end a call of the program. */
  function Ends(outcomes: seq<Outcome>): set<nat> {
    Positions(outcomes, (o: Outcome) => o != Rejected)
  }

  /** The last `n` outcomes, and no more, are rejections. */
  ghost predicate RejectedLast(outcomes: seq<Outcome>, n: nat) {
    && n <= |outcomes|
    && (forall k :: |outcomes| - n <= k < |outcomes| ==> outcomes[k] == Rejected)
    && (n < |outcomes| ==> outcomes[|outcomes| - n - 1] != Rejected)
  }

  /** The attempts of a call have been used up: that many rejections in a row. */
  ghost predicate UsedUp(outcomes: seq<Outcome>) {
    exists a: nat :: RejectedFrom(outcomes, a)
  }

  ghost predicate RejectedFrom(outcomes: seq<Outcome>, a: nat) {
    a + MAX_ATTEMPTS <= |outcomes| && forall k :: a <= k < a + MAX_ATTEMPTS ==> outcomes[k] == Rejected
  }

  lemma UsedUpGrows(outcomes: seq<Outcome>, o: Outcome, n: nat)
    requires RejectedLast(outcomes, n) && n < MAX_ATTEMPTS
    ensures UsedUp(outcomes + [o]) <==> UsedUp(outcomes) || (o == Rejected && n + 1 == MAX_ATTEMPTS)
  {
    var os := outcomes + [o];
    if UsedUp(outcomes) {
      var a: nat :| RejectedFrom(outcomes, a);
      assert RejectedFrom(os, a);
    }
    if o == Rejected && n + 1 == MAX_ATTEMPTS {
      assert RejectedFrom(os, |outcomes| - n);
    }
    if UsedUp(os) {
      var a: nat :| RejectedFrom(os, a);
      if a + MAX_ATTEMPTS <= |outcomes| {
        assert forall k :: a <= k < a + MAX_ATTEMPTS ==> outcomes[k] == os[k];
        assert RejectedFrom(outcomes, a);
      } else {
        assert os[|outcomes|] == o;
        assert n < |outcomes| ==> os[|outcomes| - n - 1] == outcomes[|outcomes| - n - 1];
      }
    }
  }

  lemma RejectedLastGrows(outcomes: seq<Outcome>, o: Outcome, n: nat)
    requires RejectedLast(outcomes, n)
    ensures RejectedLast(outcomes + [o], if o == Rejected then n + 1 else 0)
  {
  }

  lemma UsedUpForGood(outcomes: seq<Outcome>, o: Outcome)
    requires UsedUp(outcomes)
    ensures UsedUp(outcomes + [o])
  {
    var a: nat :| RejectedFrom(outcomes, a);
    assert RejectedFrom(outcomes + [o], a);
  }

  /** The program goes on as long as no call has failed and no call has used up its attempts; it
      has then ended as many calls as there are outcomes that are not rejections, and its
      present call has been rejected as often as there are rejections at the end. */
  lemma {:induction false} PlaceIs(outcomes: seq<Outcome>)
    ensures PlaceAfter(outcomes).Some? <==> Failure !in outcomes && !UsedUp(outcomes)
    ensures PlaceAfter(outcomes).Some? ==>
      var p := PlaceAfter(outcomes).value;
      p.index == |Ends(outcomes)| && RejectedLast(outcomes, p.rejections) && p.rejections < MAX_ATTEMPTS
  {
    if outcomes == [] {
      assert Ends(outcomes) == {};
    } else {
      var init, o := outcomes[..|outcomes| - 1], outcomes[|outcomes| - 1];
      assert outcomes == init + [o];
      PlaceIs(init);
      OneMorePosition(init, o, (x: Outcome) => x != Rejected);
      match PlaceAfter(init)
      case None =>
        if UsedUp(init) {
          UsedUpForGood(init, o);
        }
      case Some(p) =>
        RejectedLastGrows(init, o, p.rejections);
        UsedUpGrows(init, o, p.rejections);
    }
  }

  // ---- blocking methods --------------------------------------------------------------

  /** The first `n` outcomes of the attempts of a call. */
  function FirstOf(attempt: nat -> Outcome, n: nat): seq<Outcome> {
    if n == 0 then [] else FirstOf(attempt, n - 1) + [attempt(n - 1)]
  }

  /** After the first `n` attempts of a call the program stands at `place`. */
  ghost predicate StandsAt(outcomes: seq<Outcome>, attempt: nat -> Outcome, n: nat, place: Option<Place>) {
    PlaceAfter(outcomes + FirstOf(attempt, n)) == place
  }

  lemma OneMorePlace(outcomes: seq<Outcome>, o: Outcome, p: Place)
    requires PlaceAfter(outcomes) == Some(p)
    ensures PlaceAfter(outcomes + [o]) == NextPlace(p, o)
  {
    var longer := outcomes + [o];
    assert longer[..|longer| - 1] == outcomes && longer[|longer| - 1] == o;
  }

  lemma OneMoreAttempt(outcomes: seq<Outcome>, attempt: nat -> Outcome, n: nat, p: Place)
    requires StandsAt(outcomes, attempt, n, Some(p))
    ensures StandsAt(outcomes, attempt, n + 1, NextPlace(p, attempt(n)))
  {
    Regroup(outcomes, FirstOf(attempt, n), [attempt(n)]);
    OneMorePlace(outcomes + FirstOf(attempt, n), attempt(n), p);
  }

  lemma {:induction false} PlaceInCall(outcomes: seq<Outcome>, index: nat, attempt: nat -> Outcome, n: nat)
    requires PlaceAfter(outcomes) == Some(Place(index, 0)) && n < MAX_ATTEMPTS
    requires forall k :: 0 <= k < n ==> attempt(k) == Rejected
    ensures StandsAt(outcomes, attempt, n, Some(Place(index, n)))
  {
    if n == 0 {
      assert outcomes + FirstOf(attempt, 0) == outcomes;
    } else {
      PlaceInCall(outcomes, index, attempt, n - 1);
      OneMoreAttempt(outcomes, attempt, n - 1, Place(index, n - 1));
    }
  }

  /** The program is a sequence of blocking calls with the default interval and timeout: it goes on
      to the next call exactly when such a method returns, having made the same attempts, and is
      given up when it throws. */
  lemma CallIsBlocking(outcomes: seq<Outcome>, index: nat, attempt: nat -> Outcome)
    requires PlaceAfter(outcomes) == Some(Place(index, 0))
    ensures var r := EndingOf(attempt, RetryLimit(INFINITE_TIME, DEFAULT_INTERVAL), DEFAULT_INTERVAL);
      && r.attempts > 0
      && (forall n :: 0 <= n < r.attempts ==> StandsAt(outcomes, attempt, n, Some(Place(index, n))))
      && StandsAt(outcomes, attempt, r.attempts, if r.end == Returned then Some(Place(index + 1, 0)) else None)
  {
    DefaultAttempts();
    var n := Rejections(attempt, MAX_ATTEMPTS);
    var last := if n == MAX_ATTEMPTS then n - 1 else n;
    forall m | 0 <= m <= last ensures StandsAt(outcomes, attempt, m, Some(Place(index, m))) {
      PlaceInCall(outcomes, index, attempt, m);
    }
    OneMoreAttempt(outcomes, attempt, last, Place(index, last));
    LastAttempt(attempt, index);
  }

  lemma LastAttempt(attempt: nat -> Outcome, index: nat)
    ensures var r := EndingOf(attempt, MAX_ATTEMPTS, DEFAULT_INTERVAL);
      var n := Rejections(attempt, MAX_ATTEMPTS);
      var last := if n == MAX_ATTEMPTS then n - 1 else n;
      && r.attempts == last + 1
      && NextPlace(Place(index, last), attempt(last)) == if r.end == Returned then Some(Place(index + 1, 0)) else None
  {
  }

  // ---- the script on any connection --------------------------------------------------

  /** Every call that took the lock was the one that the program makes at its place. */
  ghost predicate Follows(ex: Example, v: Values, c: X.Connection) {
    && |c.outcomes| <= |c.acquired| <= |c.outcomes| + 1
    && forall k :: 0 <= k < |c.acquired| ==>
         c.acquired[k].thread == 0 && NextCall(ex, v, c.outcomes[..k]) == Some(c.acquired[k].call)
  }

  lemma TicketTaken(ex: Example, v: Values, c: X.Connection, c': X.Connection, ticket: X.Ticket)
    requires Follows(ex, v, c) && |c.outcomes| == |c.acquired|
    requires c'.outcomes == c.outcomes && c'.acquired == c.acquired + [ticket]
    requires ticket.thread == 0 && NextCall(ex, v, c.outcomes) == Some(ticket.call)
    ensures Follows(ex, v, c')
  {
    assert c.outcomes[..|c.outcomes|] == c.outcomes;
  }

  lemma CallEnded(ex: Example, v: Values, c: X.Connection, c': X.Connection, o: Outcome)
    requires Follows(ex, v, c) && |c.acquired| == |c.outcomes| + 1
    requires c'.outcomes == c.outcomes + [o] && c'.acquired == c.acquired
    ensures Follows(ex, v, c')
  {
    assert forall k :: 0 <= k < |c.acquired| ==> c'.outcomes[..k] == c.outcomes[..k];
  }

  /** A step other than an acquisition ends the call that holds the lock, or ends none. */
  lemma StepEndsOne(c: X.Connection, step: X.Step)
    requires X.Enabled(c, step) && !step.Acquire?
    ensures var c' := X.Apply(c, step);
      && c'.acquired == c.acquired
      && (c'.outcomes == c.outcomes || (c.holder.Some? && exists o :: c'.outcomes == c.outcomes + [o]))
  {
  }

  lemma StepFollows(ex: Example, v: Values, c: X.Connection, step: X.Step)
    requires A.Tickets(c) && Follows(ex, v, c) && X.Enabled(c, step)
    requires step.Acquire? ==> step.thread == 0 && NextCall(ex, v, c.outcomes) == Some(step.call)
    ensures Follows(ex, v, X.Apply(c, step))
  {
    var c' := X.Apply(c, step);
    if step.Acquire? {
      TicketTaken(ex, v, c, c', X.Ticket(step.thread, step.call));
    } else {
      StepEndsOne(c, step);
      if c'.outcomes != c.outcomes {
        var o :| c'.outcomes == c.outcomes + [o];
        CallEnded(ex, v, c, c', o);
      }
    }
  }

  lemma {:induction false} RunFollows(sys: System, ms: seq<Move>, i: nat)
    requires Inv(sys) && Allowed(sys, ms) && i < |sys.conns| && sys.clients[i].Scripted?
    requires Follows(sys.example, sys.clients[i].values, sys.conns[i])
    ensures i < |Run(sys, ms).conns| && Follows(sys.example, sys.clients[i].values, Run(sys, ms).conns[i])
    decreases |ms|
  {
    if ms != [] {
      var m := ms[0];
      assert A.Inv(sys.conns[i]) by {
        assert ConnInv(sys.example, sys.clients[i], sys.conns[i], sys.app, i);
      }
      MoveKeepsInv(sys, m);
      if m.i == i {
        StepFollows(sys.example, sys.clients[i].values, sys.conns[i], m.step);
      }
      RunFollows(Apply(sys, m), ms[1..], i);
    }
  }

  lemma AtMostFour(ex: Example, v: Values, c: X.Connection)
    requires Follows(ex, v, c)
    ensures |Ends(c.outcomes)| <= 4
  {
    if c.outcomes == [] {
      assert Ends(c.outcomes) == {};
    } else {
      var n := |c.outcomes| - 1;
      var init, o := c.outcomes[..n], c.outcomes[n];
      assert NextCall(ex, v, init) == Some(c.acquired[n].call);
      PlaceIs(init);
      assert c.outcomes == init + [o];
      OneMorePosition(init, o, (x: Outcome) => x != Rejected);
    }
  }

  /** In every reachable state, on a connection broken or not: a scripted client has made the
      calls of its program, each at its place, and at most four of them have ended other than
      by a rejection. */
  lemma ScriptIsFollowed(ex: Example, clients: seq<Client>, template: Record, ms: seq<Move>, i: nat)
    requires Allowed(Boot(ex, clients, template), ms)
    requires i < |clients| && clients[i].Scripted?
    ensures var sys := Run(Boot(ex, clients, template), ms);
      && i < |sys.conns| && Follows(ex, clients[i].values, sys.conns[i])
      && |Ends(sys.conns[i].outcomes)| <= 4
  {
    BootInv(ex, clients, template);
    RunFollows(Boot(ex, clients, template), ms, i);
    AtMostFour(ex, clients[i].values, Run(Boot(ex, clients, template), ms).conns[i]);
  }
}
