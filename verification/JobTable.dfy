/** The handlers that change jobs (backend/routes_jobs.py, backend/routes_signing.py,
    _attach_signed_cert in backend/app.py), running beside other requests:
    between two statements of a handler the table may change. */
module JobTable {
  import opened Wrappers
  import opened JobLifecycle
  import opened JobRaces

  datatype Outcome = Closed | NotPending | Denied

  datatype Completion = Completed | NotFound | WrongStatus(status: Status) | Mismatch

  datatype Revocation = Done | NotSigner | Missing | NotIssued(status: Status) | Unsupported | NoSerial | BackendError

  datatype Renewal = Renewed | NoJob | NotRenewable(status: Status) | NotAllowed | NoEmail | NotGenerated | IdTaken

  /** What the helper makes of a renewal: nothing, or a request with its key. */
  datatype Generation = Nothing | Generated(csrKey: Option<string>)

  class Jobs {
    var db: Db

    constructor ()
      ensures db == Db(map[], map[]) && Sound(db)
    {
      db := Db(map[], map[]);
    }

    /** Other requests run: any statements the program may execute. */
    method Others(ghost start: Sys, ghost done: seq<Act>) returns (ghost acts: seq<Act>)
      requires Run(start, done).db == db && Schedule(start, done)
      modifies this
      ensures Run(start, acts).db == db && Run(start, acts).ts == Run(start, done).ts && Schedule(start, acts)
      ensures Sound(old(db)) ==> Sound(db) && Evolves(old(db), db)
    {
      var n: int := *;
      acts := done;
      while n > 0
        invariant Run(start, acts).db == db && Run(start, acts).ts == Run(start, done).ts && Schedule(start, acts)
        invariant Sound(old(db)) ==> Sound(db) && Evolves(old(db), db)
      {
        n := n - 1;
        var s: Statement := *;
        if Respects(db, s) {
          OtherTurn(start, acts, db, old(db), s);
          db, acts := Exec(db, s), acts + [Other(s)];
        }
      }
    }

    /** One job of a cancel, bulk cancel or mark-failed request: the select, the
        check, and the guarded update. */
    method Withdraw(id: Id, verdict: Status, actor: Actor, ghost start: Sys, ghost done: seq<Act>)
      returns (outcome: Outcome, ghost acts: seq<Act>)
      requires Schedule(start, done) && Run(start, done).db == db && |start.ts| == |Run(start, done).ts| == 1
      requires var t := Run(start, done).ts[0];
               t.todo != [] && t.todo[0] == id && !t.selected && t.actor == actor && t.verdict == verdict
      modifies this
      ensures Schedule(start, acts)
      ensures var t := Run(start, done).ts[0].(todo := Run(start, done).ts[0].todo[1..]);
              Run(start, acts).ts == [match outcome
                                      case Closed => t.(closed := t.closed + [id])
                                      case NotPending => t.(skipped := t.skipped + [id])
                                      case Denied => t.(denied := t.denied + [id])]
      ensures Run(start, acts).db == db
      ensures outcome.Denied? <==>
        if verdict.Failed? then !actor.isSigner
        else id in old(db).jobs && old(db).jobs[id].status.Pending?
             && !actor.isAdmin && actor.dn != old(db).jobs[id].requester
      ensures outcome.Closed? ==>
        id in old(db).jobs && old(db).jobs[id].status.Pending? && id in db.jobs && db.jobs[id].status == verdict
      ensures outcome.NotPending? ==> !(id in db.jobs && db.jobs[id].status.Pending?)
    {
      ghost var t := Run(start, done).ts[0];
      TurnOf(start, done, db, t);
      acts := done + [Turn(0)];
      if verdict.Failed? && !actor.isSigner { return Denied, acts; }
      if !(id in db.jobs && db.jobs[id].status.Pending?) { return NotPending, acts; }
      var requester := db.jobs[id].requester;
      if !verdict.Failed? && !(actor.isAdmin || actor.dn == requester) { return Denied, acts; }
      ghost var selected := acts;
      acts := Others(start, selected);
      TurnOf(start, acts, db, t.(selected := true));
      acts := acts + [Turn(0)];
      if id in db.jobs && db.jobs[id].status.Pending? {
        db := db.(jobs := db.jobs[id := db.jobs[id].(status := verdict)]);
        outcome := Closed;
      } else {
        outcome := NotPending;
      }
    }

    /** Cancels the given jobs one by one, and reports each as cancelled, skipped or
        denied; exactly as the request that the interleaving theorems speak of. */
    method BulkCancel(ids: seq<Id>, actor: Actor)
      returns (cancelled: seq<Id>, skipped: seq<Id>, denied: seq<Id>, ghost acts: seq<Act>)
      modifies this
      ensures var start := Sys(old(db), [Started(actor, Cancelled, ids)], []);
        Schedule(start, acts) && Run(start, acts).db == db
        && Run(start, acts).ts == [Closer(actor, Cancelled, [], false, cancelled, skipped, denied)]
    {
      ghost var start := Sys(db, [Started(actor, Cancelled, ids)], []);
      cancelled, skipped, denied, acts := [], [], [], [];
      for i := 0 to |ids|
        invariant Schedule(start, acts) && Run(start, acts).db == db
        invariant Run(start, acts).ts == [Closer(actor, Cancelled, ids[i..], false, cancelled, skipped, denied)]
      {
        var outcome;
        ghost var done := acts;
        outcome, acts := Withdraw(ids[i], Cancelled, actor, start, done);
        match outcome {
          case Closed => cancelled := cancelled + [ids[i]];
          case NotPending => skipped := skipped + [ids[i]];
          case Denied => denied := denied + [ids[i]];
        }
        done := acts;
        acts := Others(start, done);
      }
      assert ids[|ids|..] == [];
    }

    /** Expires the issued jobs whose time has come. Each job logged as expired is,
        unless it was revoked or deleted between the two statements. */
    method SweepExpired(now: real) returns (logged: set<Id>, ghost acts: seq<Act>)
      requires Sound(db)
      modifies this
      ensures Schedule(Sys(old(db), [], []), acts) && Run(Sys(old(db), [], []), acts).db == db
      ensures forall id :: id in logged <==>
        id in old(db).jobs && old(db).jobs[id].status.Issued? && old(db).jobs[id].expiresAt.Some?
        && old(db).jobs[id].expiresAt.value <= now
      ensures forall id :: id in logged && id in db.jobs ==> db.jobs[id].status in {Expired, Revoked}
      ensures logged != {} ==> forall id :: id in db.jobs && db.jobs[id].status.Issued? && db.jobs[id].expiresAt.Some?
                                            ==> db.jobs[id].expiresAt.value > now
      ensures logged == {} ==> db == old(db)
      ensures Sound(db) && Evolves(old(db), db)
    {
      ghost var start := Sys(db, [], []);
      acts := [];
      logged := set id | id in db.jobs && Lapsed(db.jobs[id], now);
      if logged == {} { return; }
      acts := Others(start, []);
      StatementKeeps(db, Expire(now));
      RunMore(start, acts, Other(Expire(now)));
      acts := acts + [Other(Expire(now))];
      LoggedExpire(old(db), db, now);
      EvolvesOn(old(db), db, Exec(db, Expire(now)));
      db := db.(jobs := map id | id in db.jobs ::
        if Lapsed(db.jobs[id], now) then db.jobs[id].(status := Expired) else db.jobs[id]);
    }

    /** Completes a pending job with a certificate for its key. The update names the id
        only: `later` is the table it finds, and the lifecycle is kept if and only if
        the job is then still pending, or gone, or was issued the same certificate. */
    method AttachSignedCert(id: Id, cert: Cert) returns (r: Completion, ghost later: Db)
      requires Sound(db)
      modifies this
      ensures r.NotFound? <==> id !in old(db).jobs
      ensures r.WrongStatus? <==> id in old(db).jobs && !old(db).jobs[id].status.Pending?
      ensures r.WrongStatus? ==> r.status == old(db).jobs[id].status
      ensures r.Completed? <==>
        id in old(db).jobs && old(db).jobs[id].status.Pending? && cert.key.Some? && old(db).jobs[id].csrKey == cert.key
      ensures !r.Completed? ==> db == old(db)
      ensures Sound(later) && Evolves(old(db), later)
      ensures r.Completed? ==> db == Exec(later, Attach(id, cert))
      ensures r.Completed? && id in later.jobs ==>
        db.jobs == later.jobs[id := later.jobs[id].(status := Issued, cert := Some(cert), expiresAt := cert.notAfter)]
      ensures r.Completed? ==> (Sound(db) && Evolves(later, db) <==> AttachInTime(later, id, cert))
    {
      later := db;
      if id !in db.jobs { return NotFound, later; }
      var job := db.jobs[id];
      if !job.status.Pending? { return WrongStatus(job.status), later; }
      if !Matches(job.csrKey, cert) { return Mismatch, later; }
      ghost var acts := Others(Sys(db, [], []), []);
      later := db;
      LateAttach(old(db), later, id, cert);
      if id in db.jobs {
        var issued := db.jobs[id].(status := Issued, cert := Some(cert), expiresAt := cert.notAfter);
        db := db.(jobs := db.jobs[id := issued]);
      }
      r := Completed;
    }

    /** Revokes an issued certificate at its authority, then in the table, which may
        change meanwhile: the lifecycle is kept if and only if the job has not expired. */
    method RevokeJob(id: Id, actor: Actor, supported: bool, hasSerial: bool, revoked: bool)
      returns (r: Revocation, ghost later: Db)
      requires Sound(db)
      modifies this
      ensures r.Done? <==> (actor.isAdmin || actor.isSigner) && id in old(db).jobs && old(db).jobs[id].status.Issued?
                           && supported && hasSerial && revoked
      ensures r.NotSigner? <==> !actor.isAdmin && !actor.isSigner
      ensures r.Missing? <==> (actor.isAdmin || actor.isSigner) && id !in old(db).jobs
      ensures r.NotIssued? <==>
        (actor.isAdmin || actor.isSigner) && id in old(db).jobs && !old(db).jobs[id].status.Issued?
      ensures r.NotIssued? ==> r.status == old(db).jobs[id].status
      ensures r.Unsupported? ==> !supported
      ensures r.NoSerial? ==> supported && !hasSerial
      ensures r.BackendError? ==> supported && hasSerial && !revoked
      ensures !r.Done? ==> db == old(db)
      ensures Sound(later) && Evolves(old(db), later)
      ensures r.Done? ==> db == Exec(later, Revoke(id))
      ensures r.Done? && id in later.jobs ==> db.jobs == later.jobs[id := later.jobs[id].(status := Revoked)]
      ensures r.Done? ==> (Sound(db) && Evolves(later, db) <==> RevokeInTime(later, id))
    {
      later := db;
      if !(actor.isAdmin || actor.isSigner) { return NotSigner, later; }
      if id !in db.jobs { return Missing, later; }
      var job := db.jobs[id];
      if !job.status.Issued? { return NotIssued(job.status), later; }
      if !supported { return Unsupported, later; }
      if !hasSerial { return NoSerial, later; }
      if !revoked { return BackendError, later; }
      ghost var acts := Others(Sys(db, [], []), []);
      later := db;
      LateRevoke(old(db), later, id);
      if id in db.jobs { db := db.(jobs := db.jobs[id := db.jobs[id].(status := Revoked)]); }
      r := Done;
    }

    /** Renews an issued or expired job as a new pending one. The helper runs between
        the check and the insert, while the table may change. */
    method RenewJob(id: Id, actor: Actor, inGroup: bool, hasEmail: bool, made: Generation, newId: Id, now: real)
      returns (r: Renewal, ghost acts: seq<Act>, ghost read: Db)
      requires Sound(db)
      modifies this
      ensures Schedule(Sys(old(db), [], []), acts) && Run(Sys(old(db), [], []), acts).db == db
      ensures Sound(db) && Evolves(old(db), read) && Evolves(read, db) && Evolves(old(db), db)
      ensures forall k :: k in read.jobs && read.jobs[k].status.Issued? && read.jobs[k].expiresAt.Some? ==>
                read.jobs[k].expiresAt.value > now
      ensures r.NoJob? <==> id !in read.jobs
      ensures r.NotRenewable? <==> id in read.jobs && read.jobs[id].status !in {Issued, Expired}
      ensures r.NotGenerated? || r.IdTaken? || r.Renewed? <==>
        id in read.jobs && read.jobs[id].status in {Issued, Expired} && hasEmail
        && (actor.isAdmin || inGroup || actor.dn == read.jobs[id].requester)
      ensures r.NotGenerated? ==> made.Nothing?
      ensures r.Renewed? || r.IdTaken? ==> made.Generated?
      ensures r.IdTaken? ==> newId in db.born
      ensures r.Renewed? ==> newId !in old(db).born && newId in db.jobs
      ensures r.Renewed? ==> db.jobs[newId] == Job(actor.dn, made.csrKey, Pending, None, None, Some(id))
      ensures r.Renewed? ==> Renewable(db, id)
      ensures r.NoJob? || r.NotRenewable? || r.NotAllowed? || r.NoEmail? ==> db == read
    {
      ghost var start := Sys(db, [], []);
      var logged;
      logged, acts := SweepExpired(now);
      read := db;
      r := MayRenew(id, actor, inGroup, hasEmail);
      if r.Renewed? {
        ghost var done := acts;
        r, acts := MakeRenewal(id, actor.dn, made, newId, start, done);
        EvolvesOn(old(db), read, db);
      }
    }

    /** The checks of a renewal, which answers Renewed when they pass. */
    method MayRenew(id: Id, actor: Actor, inGroup: bool, hasEmail: bool) returns (r: Renewal)
      ensures r.NoJob? <==> id !in db.jobs
      ensures r.NotRenewable? <==> id in db.jobs && db.jobs[id].status !in {Issued, Expired}
      ensures r.NotRenewable? ==> r.status == db.jobs[id].status
      ensures r.NotAllowed? <==> id in db.jobs && db.jobs[id].status in {Issued, Expired}
                                 && !actor.isAdmin && !inGroup && actor.dn != db.jobs[id].requester
      ensures r.NoEmail? || r.Renewed? <==> id in db.jobs && db.jobs[id].status in {Issued, Expired}
                                            && (actor.isAdmin || inGroup || actor.dn == db.jobs[id].requester)
      ensures r.NoEmail? ==> !hasEmail
      ensures r.Renewed? ==> hasEmail
      ensures r in {NoJob, NotAllowed, NoEmail, Renewed} || r.NotRenewable?
    {
      if id !in db.jobs { return NoJob; }
      var job := db.jobs[id];
      if !(job.status.Issued? || job.status.Expired?) { return NotRenewable(job.status); }
      if !(actor.isAdmin || actor.dn == job.requester || inGroup) { return NotAllowed; }
      if !hasEmail { return NoEmail; }
      r := Renewed;
    }

    /** The helper makes the request, and its job is inserted. */
    method MakeRenewal(id: Id, requester: string, made: Generation, newId: Id, ghost start: Sys, ghost done: seq<Act>)
      returns (r: Renewal, ghost acts: seq<Act>)
      requires Sound(db) && id in db.jobs && Certified(db.jobs[id].status)
      requires Run(start, done).db == db && Schedule(start, done)
      modifies this
      ensures Run(start, acts).db == db && Schedule(start, acts)
      ensures Sound(db) && Evolves(old(db), db)
      ensures r.NotGenerated? <==> made.Nothing?
      ensures r.Renewed? || r.IdTaken? <==> made.Generated?
      ensures r in {NotGenerated, IdTaken, Renewed} && (r.IdTaken? ==> newId in db.born)
      ensures r.Renewed? ==> newId !in old(db).born && newId in db.jobs && Renewable(db, id)
      ensures r.Renewed? ==> db.jobs[newId] == Job(requester, made.csrKey, Pending, None, None, Some(id))
    {
      acts := Others(start, done);
      StaysRenewable(old(db), db, id);
      if made.Nothing? { return NotGenerated, acts; }
      if newId in db.born { return IdTaken, acts; }
      ghost var selected, generated := acts, db;
      acts := InsertRenewal(id, requester, made.csrKey, newId, start, selected);
      EvolvesOn(old(db), generated, db);
      r := Renewed;
    }

    method InsertRenewal(id: Id, requester: string, csrKey: Option<string>, newId: Id,
                         ghost start: Sys, ghost done: seq<Act>)
      returns (ghost acts: seq<Act>)
      requires Sound(db) && newId !in db.born && Renewable(db, id)
      requires Run(start, done).db == db && Schedule(start, done)
      modifies this
      ensures db == Exec(old(db), Insert(newId, requester, csrKey, Some(id)))
      ensures Run(start, acts).db == db && Schedule(start, acts)
      ensures Sound(db) && Evolves(old(db), db)
    {
      OtherTurn(start, done, db, db, Insert(newId, requester, csrKey, Some(id)));
      acts := done + [Other(Insert(newId, requester, csrKey, Some(id)))];
      db := Db(db.jobs[newId := Job(requester, csrKey, Pending, None, None, Some(id))], db.born[newId := |db.born|]);
    }
  }

  lemma LoggedExpire(read: Db, later: Db, now: real)
    requires Sound(read) && Evolves(read, later)
    ensures forall id :: id in read.jobs && Lapsed(read.jobs[id], now) && id in later.jobs
              ==> Exec(later, Expire(now)).jobs[id].status in {Expired, Revoked}
  {
    forall id | id in read.jobs && Lapsed(read.jobs[id], now) && id in later.jobs
      ensures Exec(later, Expire(now)).jobs[id].status in {Expired, Revoked}
    {
      assert SoundLink(read, id);
      assert Onward(read.jobs[id], later.jobs[id]);
    }
  }

  lemma StaysRenewable(read: Db, later: Db, id: Id)
    requires Sound(read) && Sound(later) && Evolves(read, later)
    requires id in read.jobs && Certified(read.jobs[id].status)
    ensures Renewable(later, id)
  {
    assert SoundLink(read, id);
    if id in later.jobs { assert Onward(read.jobs[id], later.jobs[id]); }
  }

  lemma TurnOf(start: Sys, acts: seq<Act>, db: Db, t: Closer)
    requires Schedule(start, acts) && Run(start, acts).db == db && Run(start, acts).ts == [t] && t.todo != []
    ensures Schedule(start, acts + [Turn(0)])
    ensures Run(start, acts + [Turn(0)]).db == if t.selected then Exec(db, Close(t.todo[0], t.verdict)) else db
    ensures Run(start, acts + [Turn(0)]).ts == [if t.selected then AfterUpdate(db, t) else AfterSelect(db, t)]
  {
    RunMore(start, acts, Turn(0));
  }

  lemma OtherTurn(start: Sys, acts: seq<Act>, db: Db, first: Db, s: Statement)
    requires Schedule(start, acts) && Run(start, acts).db == db && Respects(db, s)
    ensures Schedule(start, acts + [Other(s)]) && Run(start, acts + [Other(s)]).db == Exec(db, s)
    ensures Run(start, acts + [Other(s)]).ts == Run(start, acts).ts
    ensures Sound(db) && Evolves(first, db) ==> Sound(Exec(db, s)) && Evolves(first, Exec(db, s))
  {
    RunMore(start, acts, Other(s));
    if Sound(db) && Evolves(first, db) {
      StatementKeeps(db, s);
      EvolvesOn(first, db, Exec(db, s));
    }
  }
}
