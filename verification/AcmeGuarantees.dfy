/** What the client's log means for the server and for the zone: consequences of
    the contract of AcmeClient.Issue. */
module AcmeGuarantees {
  import opened AcmeLog
  import opened AcmeClient

  // ------------------------------------------------- the server's side of an order

  datatype AuthzState = Waiting | Valid | Invalid
  datatype OrderState = Pending | Ready | Processing | Finished | Abandoned
  datatype ServerState = ServerState(authz: map<Url, AuthzState>, order: OrderState)

  predicate Holds(s: ServerState, url: Url, state: AuthzState) {
    url in s.authz && s.authz[url] == state
  }

  /** One move of a server that keeps section 7.1.6 of RFC 8555 while event `e`
      is handled: verdicts on authorizations are final for the run, the order
      leaves pending for ready once all of them are valid, is abandoned while
      pending only over an invalid one, and leaves ready only by an accepted
      finalize request. */
  ghost predicate Moves(s: ServerState, e: Event, t: ServerState, urls: seq<Url>) {
    && (forall u :: u in urls && Holds(s, u, Valid) ==> Holds(t, u, Valid))
    && (forall u :: u in urls && Holds(s, u, Invalid) ==> Holds(t, u, Invalid))
    && (forall u :: u in urls && Reports(e, u, "valid") ==> Holds(t, u, Valid))
    && (t.order.Pending? ==> exists u :: u in urls && !Holds(t, u, Valid))
    && (s.order.Pending? ==>
          t.order.Pending? || t.order.Ready?
          || (t.order.Abandoned? && exists u :: u in urls && Holds(t, u, Invalid)))
    && (s.order.Ready? && !(IsFinalize(e) && !BadNonce(e)) ==> t.order.Ready?)
    && (s.order.Abandoned? ==> t.order.Abandoned?)
  }

  /** The server's states while the events after `at` are handled: states[k] is
      the one event k finds. A new order is pending or, with nothing to prove,
      ready. */
  ghost predicate Lawful(run: seq<Event>, at: nat, urls: seq<Url>, states: seq<ServerState>) {
    && at < |run| && |states| == |run| + 1
    && (states[at + 1].order.Ready? ||
        (states[at + 1].order.Pending? && exists u :: u in urls && !Holds(states[at + 1], u, Valid)))
    && forall k :: at < k < |run| ==> Moves(states[k], run[k], states[k + 1], urls)
  }

  lemma {:induction false} VerdictStays(run: seq<Event>, at: nat, urls: seq<Url>, states: seq<ServerState>,
                                        lo: nat, hi: nat, url: Url)
    requires Lawful(run, at, urls, states) && at < lo <= hi <= |run| && url in urls
    requires Holds(states[lo], url, Valid)
    ensures Holds(states[hi], url, Valid)
    decreases hi
  {
    if lo == hi {
    } else {
      VerdictStays(run, at, urls, states, lo, hi - 1, url);
      assert Moves(states[hi - 1], run[hi - 1], states[hi], urls);
    }
  }

  /** Until a finalize request is accepted the order waits, is ready, or is lost
      to an invalid authorization. */
  lemma {:induction false} OrderOpen(run: seq<Event>, at: nat, urls: seq<Url>, states: seq<ServerState>, k: nat)
    requires Lawful(run, at, urls, states) && at < k <= |run|
    requires forall i :: at < i < k && IsFinalize(run[i]) ==> BadNonce(run[i])
    ensures states[k].order.Ready?
            || (states[k].order.Pending? && exists u :: u in urls && !Holds(states[k], u, Valid))
            || (states[k].order.Abandoned? && exists u :: u in urls && Holds(states[k], u, Invalid))
    decreases k
  {
    if k == at + 1 {
    } else {
      OrderOpen(run, at, urls, states, k - 1);
      assert Moves(states[k - 1], run[k - 1], states[k], urls);
    }
  }

  /** Every finalize request finds its order ready. */
  lemma FinalizeFindsReady(run: seq<Event>, course: Course, csr: string, records: seq<Artefact>,
                           states: seq<ServerState>, j: nat)
    requires Orderly(run, course, csr, records) && course.Ordered?
    requires course.order.authorizations.Some?
    requires Lawful(run, course.at, course.order.authorizations.value, states)
    requires course.at < j < |run| && IsFinalize(run[j])
    ensures states[j].order.Ready?
  {
    var urls := course.order.authorizations.value;
    forall u | u in urls ensures Holds(states[j], u, Valid) {
      assert SeenValid(run, course.at + 1, j, u);
      var i :| course.at + 1 <= i < j && Reports(run[i], u, "valid");
      assert Moves(states[i], run[i], states[i + 1], urls);
      VerdictStays(run, course.at, urls, states, i + 1, j, u);
    }
    OrderOpen(run, course.at, urls, states, j);
  }

  // --------------------------------------------------------------------- the zone

  function Elements(s: seq<Artefact>): (r: set<Artefact>)
    ensures forall a :: a in r <==> a in s
  {
    set a | a in s
  }

  lemma {:induction false} ZoneConcat(zone: set<Artefact>, a: seq<Event>, b: seq<Event>)
    ensures ZoneAfter(zone, a + b) == ZoneAfter(ZoneAfter(zone, a), b)
  {
    if b == [] {
      assert a + b == a;
    } else {
      assert (a + b)[..|a + b| - 1] == a + b[..|b| - 1];
      ZoneConcat(zone, a, b[..|b| - 1]);
    }
  }

  predicate Effective(o: Outcome) {
    o.Done? || o.tookEffect
  }

  /** The artefacts that set-ups put in place, whether reported done or not. */
  function Put(run: seq<Event>): set<Artefact> {
    if run == [] then {}
    else
      var before, e := Put(run[..|run| - 1]), run[|run| - 1];
      if e.Place? && Effective(e.outcome) then before + {e.artefact} else before
  }

  /** Those a failed set-up put in place: the solver does not list them. */
  function Leaked(run: seq<Event>): set<Artefact> {
    if run == [] then {}
    else
      var before, e := Leaked(run[..|run| - 1]), run[|run| - 1];
      if e.Place? && !e.outcome.Done? && e.outcome.tookEffect then before + {e.artefact} else before
  }

  /** The artefacts that removals took away, whether reported done or not. */
  function Taken(run: seq<Event>): set<Artefact> {
    if run == [] then {}
    else
      var before, e := Taken(run[..|run| - 1]), run[|run| - 1];
      if e.Remove? && Effective(e.outcome) then before + {e.artefact} else before
  }

  /** The artefacts some removal was attempted for. */
  function Attempted(run: seq<Event>): set<Artefact> {
    Elements(Targets(Count(run).removals))
  }

  lemma {:induction false} EffectsConcat(a: seq<Event>, b: seq<Event>)
    ensures Put(a + b) == Put(a) + Put(b) && Taken(a + b) == Taken(a) + Taken(b)
  {
    if b == [] {
      assert a + b == a;
    } else {
      assert (a + b)[..|a + b| - 1] == a + b[..|b| - 1];
      EffectsConcat(a, b[..|b| - 1]);
    }
  }

  lemma {:induction false} ZoneOfSetUps(zone: set<Artefact>, run: seq<Event>)
    requires NoRemove(run)
    ensures ZoneAfter(zone, run) == zone + Put(run) && Taken(run) == {}
  {
    if run == [] {
    } else {
      var before := run[..|run| - 1];
      assert forall j :: 0 <= j < |before| ==> before[j] == run[j];
      ZoneOfSetUps(zone, before);
    }
  }

  lemma {:induction false} ZoneOfCleanup(zone: set<Artefact>, run: seq<Event>)
    requires NoPlace(run)
    ensures ZoneAfter(zone, run) == zone - Taken(run) && Put(run) == {}
  {
    if run == [] {
    } else {
      var before := run[..|run| - 1];
      assert forall j :: 0 <= j < |before| ==> before[j] == run[j];
      ZoneOfCleanup(zone, before);
    }
  }

  /** What any run of Issue leaves of the zone, however its updates end: what was there
      or was put in place, less what was taken away. It is the zone it began with if
      and only if nothing put in place stayed that was not there, and nothing that was
      there was taken away. */
  lemma ZoneOfRun(zone: set<Artefact>, run: seq<Event>, course: Course, csr: string, records: seq<Artefact>)
    requires Orderly(run, course, csr, records)
    ensures ZoneAfter(zone, run) == (zone + Put(run)) - Taken(run)
    ensures ZoneAfter(zone, run) == zone <==> Put(run) - Taken(run) <= zone && zone !! Taken(run)
  {
    match course {
      case NoOrder =>
        ZoneOfSetUps(zone, run);
        ZoneOfCleanup(zone, run);
      case Ordered(_, _, cleanup) =>
        var first, second := run[..cleanup], run[cleanup..];
        assert run == first + second;
        ZoneConcat(zone, first, second);
        EffectsConcat(first, second);
        ZoneOfSetUps(zone, first);
        ZoneOfCleanup(zone + Put(first), second);
    }
    Unchanged(zone, Put(run), Taken(run));
  }

  lemma Unchanged(zone: set<Artefact>, put: set<Artefact>, taken: set<Artefact>)
    ensures (zone + put) - taken == zone <==> put - taken <= zone && zone !! taken
  {
    if (zone + put) - taken == zone {
      assert forall a :: a in put - taken ==> a in (zone + put) - taken;
      assert forall a :: a in zone ==> a in (zone + put) - taken;
    }
  }

  /** Set-ups put in place what the solver lists and what failed ones leaked; removals
      take away nothing they were not attempted for. */
  lemma {:induction false} EffectsOfRun(run: seq<Event>)
    ensures Put(run) == Elements(Count(run).placed) + Leaked(run)
    ensures Taken(run) <= Attempted(run)
  {
    if run == [] {
    } else {
      var before, e := run[..|run| - 1], run[|run| - 1];
      EffectsOfRun(before);
      var was, now := Count(before).removals, Count(run).removals;
      if e.Remove? {
        assert now == was + [(e.artefact, e.outcome)];
        assert Targets(now) == Targets(was) + [e.artefact];
      }
    }
  }

  /** A cleanup of a solver that began empty attempts only what the run set up. */
  lemma AttemptsArePlaced(run: seq<Event>, course: Course, csr: string)
    requires Orderly(run, course, csr, [])
    ensures Targets(Count(run).removals) <= Count(run).placed && Attempted(run) <= Elements(Count(run).placed)
    ensures course.Ordered? ==> CleanupTrace(Count(run).placed, Count(run).removals)
  {
    assert [] + Count(run).placed == Count(run).placed;
  }

  /** When all artefacts put in place were new, the zone ends as it began if and only
      if each of them was taken away. */
  lemma NewArtefactsGone(zone: set<Artefact>, run: seq<Event>, course: Course, csr: string)
    requires Orderly(run, course, csr, []) && zone !! Put(run)
    ensures ZoneAfter(zone, run) == zone <==> Put(run) <= Taken(run)
  {
    ZoneOfRun(zone, run, course, csr, []);
    EffectsOfRun(run);
    AttemptsArePlaced(run, course, csr);
    assert zone !! Taken(run);
    if Put(run) - Taken(run) <= zone {
      assert forall a :: a in Put(run) && a !in Taken(run) ==> a in Put(run) - Taken(run);
    }
  }

  ghost predicate NoneTwice(s: seq<Artefact>) {
    forall i, k :: 0 <= i < k < |s| ==> s[i] != s[k]
  }

  /** No removal before that of the last record died of an unexpected exception. */
  ghost predicate CleanupCompleted(run: seq<Event>) {
    forall k :: 0 <= k < |Count(run).removals| && Count(run).removals[k].1.Died? ==> k == |Count(run).placed| - 1
  }

  lemma PrefixCovers(placed: seq<Artefact>, targets: seq<Artefact>, leaked: set<Artefact>)
    requires targets <= placed
    ensures Elements(placed) + leaked <= Elements(targets) <==>
            leaked <= Elements(targets)
            && forall k :: |targets| <= k < |placed| ==> placed[k] in Elements(targets)
  {
    if leaked <= Elements(targets) && forall k :: |targets| <= k < |placed| ==> placed[k] in Elements(targets) {
      forall a | a in Elements(placed) ensures a in Elements(targets) {
        var k :| 0 <= k < |placed| && placed[k] == a;
        if k < |targets| { assert targets[k] == a; }
      }
    } else if leaked <= Elements(targets) {
      var k :| |targets| <= k < |placed| && placed[k] !in Elements(targets);
      assert placed[k] in Elements(placed) + leaked;
    } else {
      var a :| a in leaked && a !in Elements(targets);
      assert a in Elements(placed) + leaked;
    }
  }

  lemma FreshPrefixCovers(placed: seq<Artefact>, targets: seq<Artefact>, leaked: set<Artefact>)
    requires targets <= placed && NoneTwice(placed)
    ensures Elements(placed) + leaked <= Elements(targets) <==> leaked <= Elements(placed) && targets == placed
  {
    PrefixCovers(placed, targets, leaked);
    if |targets| < |placed| {
      assert forall k :: 0 <= k < |targets| ==> targets[k] == placed[k] != placed[|targets|];
      assert placed[|targets|] !in Elements(targets);
    }
  }

  /** Everything put in place has its removal attempted if and only if every failed
      set-up that took effect left an artefact another one lists and has attempted, and
      each record the cleanup did not reach is one it attempted before. */
  lemma PutIsAttempted(run: seq<Event>, course: Course, csr: string)
    requires Orderly(run, course, csr, [])
    ensures Put(run) <= Attempted(run) <==>
            Leaked(run) <= Attempted(run)
            && forall k :: |Count(run).removals| <= k < |Count(run).placed| ==> Count(run).placed[k] in Attempted(run)
  {
    EffectsOfRun(run);
    AttemptsArePlaced(run, course, csr);
    PrefixCovers(Count(run).placed, Targets(Count(run).removals), Leaked(run));
  }

  /** A cleanup ran to its last record exactly when it attempted all of them. */
  lemma CompletedIsAll(run: seq<Event>, course: Course, csr: string)
    requires Orderly(run, course, csr, [])
    ensures CleanupCompleted(run) <==> Targets(Count(run).removals) == Count(run).placed
  {
    AttemptsArePlaced(run, course, csr);
    if course.Ordered? { CleanupExact(Count(run).placed, Count(run).removals); }
  }

  /** When no artefact is set up twice: if and only if no failed set-up left one the
      solver does not list, and the cleanup ran to its last record. */
  lemma FreshPutIsAttempted(run: seq<Event>, course: Course, csr: string)
    requires Orderly(run, course, csr, []) && NoneTwice(Count(run).placed)
    ensures Put(run) <= Attempted(run) <==> Leaked(run) <= Elements(Count(run).placed) && CleanupCompleted(run)
  {
    EffectsOfRun(run);
    AttemptsArePlaced(run, course, csr);
    CompletedIsAll(run, course, csr);
    FreshPrefixCovers(Count(run).placed, Targets(Count(run).removals), Leaked(run));
  }

  lemma EffectsAppend(run: seq<Event>, e: Event)
    ensures Put(run + [e]) == if e.Place? && Effective(e.outcome) then Put(run) + {e.artefact} else Put(run)
    ensures Taken(run + [e]) == if e.Remove? && Effective(e.outcome) then Taken(run) + {e.artefact} else Taken(run)
    ensures Leaked(run + [e])
         == if e.Place? && !e.outcome.Done? && e.outcome.tookEffect then Leaked(run) + {e.artefact} else Leaked(run)
  {
    assert (run + [e])[..|run + [e]| - 1] == run;
  }

  lemma KilledEffects(e: Event, a: Artefact)
    requires e.Post?
    ensures var run := [] + [e] + [Place(a, Died(true))];
      Put(run) == Leaked(run) == {a} && Taken(run) == {} && Count(run).placed == [] && Count(run).removals == []
  {
    EffectsAppend([], e);
    EffectsAppend([] + [e], Place(a, Died(true)));
    CountAppend([], e);
    CountAppend([] + [e], Place(a, Died(true)));
  }

  lemma KilledIsOrderly(run: seq<Event>, order: Object, a: Artefact, csr: string)
    requires |run| == 2 && CreatesOrder(run[0], order) && run[1] == Place(a, Died(true))
    requires Count(run).placed == [] && Count(run).removals == []
    ensures Orderly(run, Ordered(order, 0, 2), csr, [])
  {
    assert run[..2] == run && run[2..] == [];
    assert [] + Count(run).placed == [] && Targets(Count(run).removals) == [];
  }

  /** A set-up killed after it took effect, such as an nsupdate timing out once the
      server has applied the record, leaves a new artefact behind that no removal is
      attempted for. */
  lemma KilledSetUpLeaks(zone: set<Artefact>, e: Event, order: Object, a: Artefact, csr: string)
    requires CreatesOrder(e, order) && a !in zone
    ensures var run := [e, Place(a, Died(true))];
      && Orderly(run, Ordered(order, 0, 2), csr, [])
      && Leaked(run) == {a} && Attempted(run) == {} && ZoneAfter(zone, run) == zone + {a} != zone
  {
    var run := [e, Place(a, Died(true))];
    KilledEffects(e, a);
    assert run == [] + [e] + [Place(a, Died(true))];
    KilledIsOrderly(run, order, a, csr);
    ZoneOfRun(zone, run, Ordered(order, 0, 2), csr, []);
    assert Targets([]) == [];
    assert a in zone + {a};
  }

  /** Updates that fail do nothing, and removals succeed. */
  ghost predicate UpdatesAreClean(run: seq<Event>) {
    forall j :: 0 <= j < |run| ==>
      && (run[j].Place? && !run[j].outcome.Done? ==> !run[j].outcome.tookEffect)
      && (run[j].Remove? && !run[j].outcome.Done? ==> run[j].outcome.tookEffect)
  }

  lemma {:induction false} CleanEffects(run: seq<Event>)
    requires UpdatesAreClean(run)
    ensures Leaked(run) == {} && Taken(run) == Attempted(run)
  {
    if run == [] {
    } else {
      var before, e := run[..|run| - 1], run[|run| - 1];
      assert forall j :: 0 <= j < |before| ==> before[j] == run[j];
      CleanEffects(before);
      var was, now := Count(before).removals, Count(run).removals;
      if e.Remove? {
        assert now == was + [(e.artefact, e.outcome)];
        assert Targets(now) == Targets(was) + [e.artefact];
      }
    }
  }

  lemma RestoredExactly(zone: set<Artefact>, put: set<Artefact>)
    ensures zone + put - put == zone - put && (zone - put == zone <==> zone !! put)
  {
  }

  /** With clean updates and a cleanup that ran to its last record, the zone ends as it
      began if and only if all the artefacts set up were new. */
  lemma ZoneRestored(zone: set<Artefact>, run: seq<Event>, course: Course, csr: string)
    requires Orderly(run, course, csr, []) && UpdatesAreClean(run) && CleanupCompleted(run)
    ensures ZoneAfter(zone, run) == zone - Elements(Count(run).placed)
    ensures ZoneAfter(zone, run) == zone <==> zone !! Elements(Count(run).placed)
  {
    ZoneOfRun(zone, run, course, csr, []);
    EffectsOfRun(run);
    CleanEffects(run);
    CompletedIsAll(run, course, csr);
    assert Taken(run) == Elements(Count(run).placed) == Put(run);
    RestoredExactly(zone, Put(run));
  }
}
