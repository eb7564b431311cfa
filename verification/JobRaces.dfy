/** The requests that withdraw pending jobs: cancel, bulk cancel and mark failed
    (backend/routes_jobs.py), each a SELECT and a guarded UPDATE per job, with
    any other statements in between. */
module JobRaces {
  import opened JobLifecycle

  datatype Actor = Actor(dn: string, isAdmin: bool, isSigner: bool)

  /** A request in progress: the ids still to do, whether the first of them has been
      selected, and what was reported for the others. */
  datatype Closer = Closer(actor: Actor, verdict: Status, todo: seq<Id>, selected: bool,
                           closed: seq<Id>, skipped: seq<Id>, denied: seq<Id>)

  function Started(actor: Actor, verdict: Status, ids: seq<Id>): Closer {
    Closer(actor, verdict, ids, false, [], [], [])
  }

  /** Only signers fail jobs; admins cancel any job, others their own. */
  predicate Allowed(actor: Actor, verdict: Status, requester: string) {
    if verdict.Failed? then actor.isSigner else actor.isAdmin || actor.dn == requester
  }

  function IsPending(db: Db, id: Id): bool {
    id in db.jobs && db.jobs[id].status.Pending?
  }

  /** SELECT ... WHERE id = ? AND status = 'pending', and the check of the row read.
      A signer's right is checked before. */
  function AfterSelect(db: Db, t: Closer): Closer
    requires t.todo != []
  {
    var id, rest := t.todo[0], t.(todo := t.todo[1..]);
    if t.verdict.Failed? && !t.actor.isSigner then rest.(denied := t.denied + [id])
    else if !IsPending(db, id) then rest.(skipped := t.skipped + [id])
    else if !Allowed(t.actor, t.verdict, db.jobs[id].requester) then rest.(denied := t.denied + [id])
    else t.(selected := true)
  }

  /** What the row count of the guarded UPDATE says. */
  function AfterUpdate(db: Db, t: Closer): Closer
    requires t.todo != []
  {
    var id, rest := t.todo[0], t.(todo := t.todo[1..], selected := false);
    if IsPending(db, id) then rest.(closed := t.closed + [id]) else rest.(skipped := t.skipped + [id])
  }

  datatype Act = Turn(who: nat) | Other(s: Statement)

  /** The requests followed, and the jobs that any others have closed. */
  datatype Sys = Sys(db: Db, ts: seq<Closer>, outside: seq<Id>)

  function Step(y: Sys, a: Act): Sys {
    match a
    case Other(s) =>
      y.(db := Exec(y.db, s), outside := if s.Close? && IsPending(y.db, s.id) then y.outside + [s.id] else y.outside)
    case Turn(i) =>
      if i >= |y.ts| || y.ts[i].todo == [] then y
      else if !y.ts[i].selected then y.(ts := y.ts[i := AfterSelect(y.db, y.ts[i])])
      else y.(db := Exec(y.db, Close(y.ts[i].todo[0], y.ts[i].verdict)), ts := y.ts[i := AfterUpdate(y.db, y.ts[i])])
  }

  function Run(y: Sys, acts: seq<Act>): Sys {
    if acts == [] then y else Step(Run(y, acts[..|acts| - 1]), acts[|acts| - 1])
  }

  /** The other statements are those the program runs, with attaching and revoking
      taken as one step each. */
  predicate MayStep(y: Sys, a: Act) {
    a.Other? ==> Respects(y.db, a.s)
  }

  ghost predicate Schedule(y: Sys, acts: seq<Act>) {
    forall i :: 0 <= i < |acts| ==> MayStep(Run(y, acts[..i]), acts[i])
  }

  ghost predicate Fit(y: Sys) {
    Sound(y.db) && forall i :: 0 <= i < |y.ts| ==> Withdrawn(y.ts[i].verdict)
  }

  lemma RunMore(y: Sys, acts: seq<Act>, a: Act)
    ensures Run(y, acts + [a]) == Step(Run(y, acts), a)
    ensures Schedule(y, acts) && MayStep(Run(y, acts), a) ==> Schedule(y, acts + [a])
  {
    assert (acts + [a])[..|acts|] == acts;
    assert forall i :: 0 <= i < |acts| ==> (acts + [a])[..i] == acts[..i];
  }

  lemma ScheduleInit(y: Sys, acts: seq<Act>)
    requires acts != [] && Schedule(y, acts)
    ensures Schedule(y, acts[..|acts| - 1]) && MayStep(Run(y, acts[..|acts| - 1]), acts[|acts| - 1])
  {
    var init := acts[..|acts| - 1];
    assert forall i :: 0 <= i < |init| ==> init[..i] == acts[..i];
  }

  lemma StepKeeps(y: Sys, a: Act)
    requires Fit(y) && MayStep(y, a)
    ensures Fit(Step(y, a)) && Evolves(y.db, Step(y, a).db)
  {
    if a.Other? {
      StatementKeeps(y.db, a.s);
    } else if a.who < |y.ts| && y.ts[a.who].todo != [] && y.ts[a.who].selected {
      StatementKeeps(y.db, Close(y.ts[a.who].todo[0], y.ts[a.who].verdict));
    }
  }

  /** The guarded updates need no check of their own: every interleaving keeps the
      lifecycle. */
  lemma {:induction false} InterleavingsKeep(y: Sys, acts: seq<Act>)
    requires Fit(y) && Schedule(y, acts)
    ensures Fit(Run(y, acts)) && Evolves(y.db, Run(y, acts).db)
  {
    if acts == [] {
    } else {
      var init := acts[..|acts| - 1];
      ScheduleInit(y, acts);
      InterleavingsKeep(y, init);
      StepKeeps(Run(y, init), acts[|acts| - 1]);
      EvolvesOn(y.db, Run(y, init).db, Run(y, acts).db);
    }
  }

  // ------------------------------------------------------------------------ one winner

  function Times(s: seq<Id>, id: Id): nat {
    if s == [] then 0 else (if s[0] == id then 1 else 0) + Times(s[1..], id)
  }

  lemma {:induction false} TimesAppend(s: seq<Id>, x: Id, id: Id)
    ensures Times(s + [x], id) == Times(s, id) + if x == id then 1 else 0
  {
    if s == [] {
    } else {
      assert (s + [x])[1..] == s[1..] + [x];
      TimesAppend(s[1..], x, id);
    }
  }

  /** How often the requests report having closed the job. */
  function Wins(ts: seq<Closer>, id: Id): nat {
    if ts == [] then 0 else Times(ts[0].closed, id) + Wins(ts[1..], id)
  }

  lemma {:induction false} WinsUpdate(ts: seq<Closer>, i: nat, t: Closer, id: Id)
    requires i < |ts|
    ensures Wins(ts[i := t], id) + Times(ts[i].closed, id) == Wins(ts, id) + Times(t.closed, id)
  {
    if i == 0 {
      assert ts[i := t][1..] == ts[1..];
    } else {
      assert ts[i := t][1..] == ts[1..][i - 1 := t];
      WinsUpdate(ts[1..], i - 1, t, id);
    }
  }

  function Winners(y: Sys, id: Id): nat {
    Wins(y.ts, id) + Times(y.outside, id)
  }

  /** A withdrawn job has one winner, a job in any other status none. */
  predicate WinnerKnown(y: Sys, id: Id) {
    && Winners(y, id) <= 1
    && (id in y.db.jobs ==> Winners(y, id) == if Withdrawn(y.db.jobs[id].status) then 1 else 0)
  }

  lemma StatementKeepsWithdrawn(db: Db, s: Statement, id: Id)
    requires Sound(db) && Respects(db, s) && id in db.born && id in Exec(db, s).jobs
    requires !(s.Close? && s.id == id && IsPending(db, id))
    ensures id in db.jobs && (Withdrawn(Exec(db, s).jobs[id].status) <==> Withdrawn(db.jobs[id].status))
  {
    RowKeeps(db, s, id);
  }

  lemma StepKeepsWinner(y: Sys, a: Act, id: Id)
    requires Fit(y) && MayStep(y, a) && id in y.db.born && WinnerKnown(y, id)
    ensures WinnerKnown(Step(y, a), id)
  {
    match a
    case Other(s) =>
      if s.Close? && IsPending(y.db, s.id) { TimesAppend(y.outside, s.id, id); }
      if id in Exec(y.db, s).jobs && !(s.Close? && s.id == id && IsPending(y.db, id)) {
        StatementKeepsWithdrawn(y.db, s, id);
      }
    case Turn(i) =>
      if i < |y.ts| && y.ts[i].todo != [] {
        WinsUpdate(y.ts, i, Step(y, a).ts[i], id);
        TimesAppend(y.ts[i].closed, y.ts[i].todo[0], id);
        if y.ts[i].selected {
          var s := Close(y.ts[i].todo[0], y.ts[i].verdict);
          if id in y.db.jobs && !(s.id == id && IsPending(y.db, id)) { StatementKeepsWithdrawn(y.db, s, id); }
        }
      }
  }

  /** Whatever the interleaving, at most one request is told it closed the job, and
      exactly one is when the job ends cancelled or failed. */
  lemma {:induction false} OneWinner(y: Sys, acts: seq<Act>, id: Id)
    requires Fit(y) && Schedule(y, acts) && id in y.db.born && WinnerKnown(y, id)
    ensures WinnerKnown(Run(y, acts), id)
  {
    if acts == [] {
    } else {
      var init := acts[..|acts| - 1];
      ScheduleInit(y, acts);
      InterleavingsKeep(y, init);
      OneWinner(y, init, id);
      StepKeepsWinner(Run(y, init), acts[|acts| - 1], id);
    }
  }

  /** The request still has the job to do, or the job is no longer pending. */
  predicate Settling(y: Sys, i: nat, id: Id)
    requires i < |y.ts|
  {
    id in y.ts[i].todo || !IsPending(y.db, id)
  }

  predicate MaySettle(y: Sys, i: nat, id: Id) {
    i < |y.ts| && id in y.db.born
    && (id in y.db.jobs ==> Allowed(y.ts[i].actor, y.ts[i].verdict, y.db.jobs[id].requester))
  }

  lemma StepSettles(y: Sys, a: Act, i: nat, id: Id)
    requires Fit(y) && MayStep(y, a) && MaySettle(y, i, id) && Settling(y, i, id)
    ensures MaySettle(Step(y, a), i, id) && Settling(Step(y, a), i, id)
  {
    StepKeeps(y, a);
    if a == Turn(i) && y.ts[i].todo != [] {
      assert y.ts[i].todo == [y.ts[i].todo[0]] + y.ts[i].todo[1..];
    }
  }

  lemma {:induction false} RunSettles(y: Sys, acts: seq<Act>, i: nat, id: Id)
    requires Fit(y) && Schedule(y, acts) && MaySettle(y, i, id) && Settling(y, i, id)
    ensures MaySettle(Run(y, acts), i, id) && Settling(Run(y, acts), i, id)
  {
    if acts == [] {
    } else {
      ScheduleInit(y, acts);
      InterleavingsKeep(y, acts[..|acts| - 1]);
      RunSettles(y, acts[..|acts| - 1], i, id);
      StepSettles(Run(y, acts[..|acts| - 1]), acts[|acts| - 1], i, id);
    }
  }

  predicate Touches(a: Act, id: Id) {
    a.Other? && (a.s == Delete(id) || (a.s.Attach? && a.s.id == id))
  }

  lemma StatementLeavesUncertified(db: Db, s: Statement, id: Id)
    requires Sound(db) && Respects(db, s) && id in db.jobs && !Certified(db.jobs[id].status)
    requires s != Delete(id) && !(s.Attach? && s.id == id)
    ensures id in Exec(db, s).jobs && !Certified(Exec(db, s).jobs[id].status)
  {
    assert SoundLink(db, id);
  }

  lemma {:induction false} StaysUncertified(y: Sys, acts: seq<Act>, id: Id)
    requires Fit(y) && Schedule(y, acts) && id in y.db.jobs && !Certified(y.db.jobs[id].status)
    requires forall i :: 0 <= i < |acts| ==> !Touches(acts[i], id)
    ensures id in Run(y, acts).db.jobs && !Certified(Run(y, acts).db.jobs[id].status)
  {
    if acts == [] {
    } else {
      var before, a := Run(y, acts[..|acts| - 1]), acts[|acts| - 1];
      ScheduleInit(y, acts);
      InterleavingsKeep(y, acts[..|acts| - 1]);
      StaysUncertified(y, acts[..|acts| - 1], id);
      assert !Touches(a, id);
      if a.Other? { StatementLeavesUncertified(before.db, a.s, id); }
    }
  }

  /** A pending job that some request allowed to withdraw it names, and that is
      neither issued nor deleted meanwhile, ends withdrawn once that request is
      done, whatever the interleaving, and exactly one request reports it. */
  lemma ExactlyOneWinner(y: Sys, acts: seq<Act>, i: nat, id: Id)
    requires Fit(y) && Schedule(y, acts) && IsPending(y.db, id) && Winners(y, id) == 0
    requires MaySettle(y, i, id) && id in y.ts[i].todo
    requires i < |Run(y, acts).ts| && Run(y, acts).ts[i].todo == []
    requires forall k :: 0 <= k < |acts| ==> !Touches(acts[k], id)
    ensures Winners(Run(y, acts), id) == 1
    ensures id in Run(y, acts).db.jobs && Withdrawn(Run(y, acts).db.jobs[id].status)
  {
    OneWinner(y, acts, id);
    RunSettles(y, acts, i, id);
    StaysUncertified(y, acts, id);
  }

  // ---------------------------------------------------------------- nothing unreported

  /** How often the request has reported the job or has still to do it. */
  function Reported(t: Closer, id: Id): nat {
    Times(t.closed, id) + Times(t.skipped, id) + Times(t.denied, id) + Times(t.todo, id)
  }

  lemma SelectReports(db: Db, t: Closer, id: Id)
    requires t.todo != []
    ensures Reported(AfterSelect(db, t), id) == Reported(t, id)
  {
    var after := AfterSelect(db, t);
    if after.denied != t.denied {
      TimesAppend(t.denied, t.todo[0], id);
    } else if after.skipped != t.skipped {
      TimesAppend(t.skipped, t.todo[0], id);
    }
  }

  lemma UpdateReports(db: Db, t: Closer, id: Id)
    requires t.todo != []
    ensures Reported(AfterUpdate(db, t), id) == Reported(t, id)
  {
    TimesAppend(if IsPending(db, t.todo[0]) then t.closed else t.skipped, t.todo[0], id);
  }

  lemma StepReports(y: Sys, a: Act, i: nat, id: Id)
    requires i < |y.ts|
    ensures |Step(y, a).ts| == |y.ts| && Reported(Step(y, a).ts[i], id) == Reported(y.ts[i], id)
  {
    if a == Turn(i) && y.ts[i].todo != [] {
      SelectReports(y.db, y.ts[i], id);
      UpdateReports(y.db, y.ts[i], id);
    }
  }

  /** Each id of a request ends in exactly one of its three lists, as often as it
      was given. */
  lemma {:induction false} AllReported(y: Sys, acts: seq<Act>, i: nat, id: Id)
    requires i < |y.ts|
    ensures |Run(y, acts).ts| == |y.ts| && Reported(Run(y, acts).ts[i], id) == Reported(y.ts[i], id)
  {
    if acts == [] {
    } else {
      AllReported(y, acts[..|acts| - 1], i, id);
      StepReports(Run(y, acts[..|acts| - 1]), acts[|acts| - 1], i, id);
    }
  }
}
