/** The job table and the SQL statements that change it (backend/app.py,
    backend/routes_jobs.py, backend/routes_signing.py): which statements keep
    the lifecycle pending -> issued / cancelled / failed, issued -> expired /
    revoked, and what every run of them keeps. */
module JobLifecycle {
  import opened Wrappers

  type Id = string

  datatype Status = Pending | Issued | Cancelled | Failed | Expired | Revoked

  /** A certificate: its public key, if one can be read, and its notAfter. */
  datatype Cert = Cert(pem: string, key: Option<string>, notAfter: Option<real>)

  datatype Job = Job(requester: string, csrKey: Option<string>, status: Status, cert: Option<Cert>,
                     expiresAt: Option<real>, renewedFrom: Option<Id>)

  /** The rows, and the ids ever drawn with the order they were drawn in. */
  datatype Db = Db(jobs: map<Id, Job>, born: map<Id, nat>)

  predicate Matches(csrKey: Option<string>, cert: Cert) {
    csrKey.Some? && cert.key.Some? && csrKey.value == cert.key.value
  }

  predicate Certified(s: Status) {
    s.Issued? || s.Expired? || s.Revoked?
  }

  predicate Withdrawn(s: Status) {
    s.Cancelled? || s.Failed?
  }

  datatype Statement =
    | Insert(id: Id, requester: string, csrKey: Option<string>, renewedFrom: Option<Id>)
    | Close(id: Id, verdict: Status)        // UPDATE ... WHERE id = ? AND status = 'pending'
    | Attach(id: Id, cert: Cert)            // UPDATE ... WHERE id = ?
    | Revoke(id: Id)                        // UPDATE ... WHERE id = ?
    | Expire(now: real)                     // UPDATE ... WHERE status = 'issued' AND expires_at <= ?
    | Delete(id: Id)

  predicate Lapsed(j: Job, now: real) {
    j.status.Issued? && j.expiresAt.Some? && j.expiresAt.value <= now
  }

  function Exec(db: Db, s: Statement): Db {
    match s
    case Insert(id, requester, csrKey, from) =>
      Db(db.jobs[id := Job(requester, csrKey, Pending, None, None, from)], db.born[id := |db.born|])
    case Close(id, verdict) =>
      if id in db.jobs && db.jobs[id].status.Pending?
      then db.(jobs := db.jobs[id := db.jobs[id].(status := verdict)]) else db
    case Attach(id, cert) =>
      if id in db.jobs
      then db.(jobs := db.jobs[id := db.jobs[id].(status := Issued, cert := Some(cert), expiresAt := cert.notAfter)])
      else db
    case Revoke(id) =>
      if id in db.jobs then db.(jobs := db.jobs[id := db.jobs[id].(status := Revoked)]) else db
    case Expire(now) =>
      db.(jobs := map id | id in db.jobs ::
                    if Lapsed(db.jobs[id], now) then db.jobs[id].(status := Expired) else db.jobs[id])
    case Delete(id) => db.(jobs := db.jobs - {id})
  }

  function ExecAll(db: Db, run: seq<Statement>): Db {
    if run == [] then db else Exec(ExecAll(db, run[..|run| - 1]), run[|run| - 1])
  }

  /** What the program has checked by the time it runs the statement, if the check
      still holds then. Ids are drawn afresh. */
  predicate Respects(db: Db, s: Statement) {
    match s
    case Insert(id, _, _, from) =>
      id !in db.born && (from.Some? ==> Renewable(db, from.value))
    case Close(_, verdict) => Withdrawn(verdict)
    case Attach(id, cert) => id in db.jobs ==> db.jobs[id].status.Pending? && Matches(db.jobs[id].csrKey, cert)
    case Revoke(id) => id in db.jobs ==> db.jobs[id].status.Issued?
    case _ => true
  }

  /** A renewal starts from an issued or expired job, which may be deleted since. */
  predicate Renewable(db: Db, id: Id) {
    id in db.born && (id in db.jobs ==> Certified(db.jobs[id].status))
  }

  ghost predicate AllRespect(db: Db, run: seq<Statement>) {
    forall i :: 0 <= i < |run| ==> Respects(ExecAll(db, run[..i]), run[i])
  }

  // ------------------------------------------------------------------- what every run keeps

  predicate SoundJob(j: Job) {
    && (j.cert.Some? <==> Certified(j.status))
    && (j.cert.Some? ==> Matches(j.csrKey, j.cert.value) && j.expiresAt == j.cert.value.notAfter)
    && (j.status.Expired? ==> j.expiresAt.Some?)
  }

  predicate SoundLink(db: Db, id: Id)
    requires id in db.jobs
  {
    id in db.born
    && var from := db.jobs[id].renewedFrom;
       from.Some? ==> Renewable(db, from.value) && db.born[from.value] < db.born[id]
  }

  ghost predicate Sound(db: Db) {
    && (forall id :: id in db.born ==> db.born[id] < |db.born|)
    && (forall id :: id in db.jobs ==> SoundJob(db.jobs[id]))
    && (forall id :: id in db.jobs ==> SoundLink(db, id))
  }

  /** How one row may change: a certificate is written once, and only a pending or
      an issued job moves on. */
  predicate Onward(x: Job, y: Job) {
    && y.requester == x.requester && y.csrKey == x.csrKey && y.renewedFrom == x.renewedFrom
    && (x.cert.Some? ==> y.cert == x.cert && y.expiresAt == x.expiresAt)
    && (x.status == y.status || x.status.Pending?
        || (x.status.Issued? && (y.status.Expired? || y.status.Revoked?)))
  }

  /** How the table may change: rows move onward, and an id once drawn is not used
      for another row. */
  ghost predicate Evolves(a: Db, b: Db) {
    && (forall id :: id in a.born ==> id in b.born && b.born[id] == a.born[id])
    && (forall id :: id in b.jobs && id in a.born ==> id in a.jobs && Onward(a.jobs[id], b.jobs[id]))
  }

  lemma EvolvesOn(a: Db, b: Db, c: Db)
    requires Evolves(a, b) && Evolves(b, c)
    ensures Evolves(a, c)
  {}

  lemma RowKeeps(db: Db, s: Statement, id: Id)
    requires Sound(db) && Respects(db, s) && id in Exec(db, s).jobs
    ensures SoundJob(Exec(db, s).jobs[id])
    ensures id in db.born ==> id in db.jobs && Onward(db.jobs[id], Exec(db, s).jobs[id])
    ensures id in db.jobs ==> Exec(db, s).jobs[id].renewedFrom == db.jobs[id].renewedFrom
  {
    if id in db.jobs { assert SoundLink(db, id) && SoundJob(db.jobs[id]); }
  }

  lemma LinkKeeps(db: Db, s: Statement, id: Id)
    requires Sound(db) && Respects(db, s) && id in Exec(db, s).jobs
    ensures SoundLink(Exec(db, s), id)
  {
    RowKeeps(db, s, id);
    if id in db.jobs {
      assert SoundLink(db, id);
    }
    var from := Exec(db, s).jobs[id].renewedFrom;
    if from.Some? && from.value in Exec(db, s).jobs {
      RowKeeps(db, s, from.value);
    }
  }

  lemma StatementKeeps(db: Db, s: Statement)
    requires Sound(db) && Respects(db, s)
    ensures Sound(Exec(db, s)) && Evolves(db, Exec(db, s))
  {
    var after := Exec(db, s);
    forall id | id in after.jobs
      ensures SoundJob(after.jobs[id]) && SoundLink(after, id)
      ensures id in db.born ==> id in db.jobs && Onward(db.jobs[id], after.jobs[id])
    {
      RowKeeps(db, s, id);
      LinkKeeps(db, s, id);
    }
    if s.Insert? { assert after.born.Keys == db.born.Keys + {s.id}; }
  }

  lemma AllRespectInit(db: Db, run: seq<Statement>)
    requires run != [] && AllRespect(db, run)
    ensures AllRespect(db, run[..|run| - 1]) && Respects(ExecAll(db, run[..|run| - 1]), run[|run| - 1])
  {
    var init := run[..|run| - 1];
    assert forall i :: 0 <= i < |init| ==> init[..i] == run[..i];
  }

  /** In every state a run of such statements reaches, a job has a certificate
      exactly when it is issued, expired or revoked, and the certificate carries the
      key of the job's request; and no run rewrites a certificate or reopens a
      closed job. */
  lemma {:induction false} LifecycleKept(db: Db, run: seq<Statement>)
    requires Sound(db) && AllRespect(db, run)
    ensures Sound(ExecAll(db, run)) && Evolves(db, ExecAll(db, run))
  {
    if run == [] {
    } else {
      var init := run[..|run| - 1];
      AllRespectInit(db, run);
      LifecycleKept(db, init);
      StatementKeeps(ExecAll(db, init), run[|run| - 1]);
      EvolvesOn(db, ExecAll(db, init), ExecAll(db, run));
    }
  }

  /** In every state a run reaches from an empty table, the certificate of a job has the
      public key of its request; it is there exactly when the job is issued, expired or
      revoked, and the job expires when it does. */
  lemma CertificateFitsRequest(run: seq<Statement>, id: Id)
    requires AllRespect(Db(map[], map[]), run) && id in ExecAll(Db(map[], map[]), run).jobs
    ensures var j := ExecAll(Db(map[], map[]), run).jobs[id];
      && (j.cert.Some? <==> j.status in {Issued, Expired, Revoked})
      && (j.cert.Some? ==>
            && j.csrKey.Some? && j.cert.value.key.Some? && j.csrKey.value == j.cert.value.key.value
            && j.expiresAt == j.cert.value.notAfter)
  {
    LifecycleKept(Db(map[], map[]), run);
    assert SoundJob(ExecAll(Db(map[], map[]), run).jobs[id]);
  }

  predicate SweptAfter(run: seq<Statement>, notAfter: real) {
    exists i :: 0 <= i < |run| && run[i].Expire? && notAfter <= run[i].now
  }

  /** The statements of the run account for the status and the certificate of the row. */
  predicate Earned(run: seq<Statement>, id: Id, j: Job) {
    && (j.cert.Some? ==> Attach(id, j.cert.value) in run)
    && (Withdrawn(j.status) ==> Close(id, j.status) in run)
    && (j.status.Revoked? ==> Revoke(id) in run)
    && (j.status.Expired? ==> j.expiresAt.Some? && SweptAfter(run, j.expiresAt.value))
  }

  lemma EarnedMore(before: Db, run: seq<Statement>, s: Statement, id: Id)
    requires Sound(before) && Respects(before, s) && id in Exec(before, s).jobs
    requires id in before.jobs ==> Earned(run, id, before.jobs[id])
    ensures Earned(run + [s], id, Exec(before, s).jobs[id])
  {
    var j := Exec(before, s).jobs[id];
    assert s in run + [s] && (run + [s])[|run|] == s;
    if id in before.jobs && j.status.Expired? && before.jobs[id].status.Expired? {
      var i :| 0 <= i < |run| && run[i].Expire? && j.expiresAt.value <= run[i].now;
      assert (run + [s])[i] == run[i];
    }
  }

  /** No row is issued, withdrawn, revoked or expired but by a statement that says so,
      and none expires before a sweep later than the certificate's end. */
  lemma {:induction false} EveryStatusEarned(db: Db, run: seq<Statement>, id: Id)
    requires Sound(db) && AllRespect(db, run) && id in ExecAll(db, run).jobs
    requires id in db.jobs ==> db.jobs[id].status.Pending?
    ensures Earned(run, id, ExecAll(db, run).jobs[id])
  {
    if run == [] {
      assert SoundJob(db.jobs[id]);
    } else {
      var init, s := run[..|run| - 1], run[|run| - 1];
      AllRespectInit(db, run);
      LifecycleKept(db, init);
      if id in ExecAll(db, init).jobs { EveryStatusEarned(db, init, id); }
      EarnedMore(ExecAll(db, init), init, s, id);
      assert run == init + [s];
    }
  }

  ghost predicate RenewalPath(db: Db, path: seq<Id>) {
    forall i :: 0 <= i < |path| - 1 ==> path[i] in db.jobs && db.jobs[path[i]].renewedFrom == Some(path[i + 1])
  }

  /** Each renewal link leads to an id drawn earlier, so none lead back. */
  lemma {:induction false} NoRenewalCycle(db: Db, path: seq<Id>)
    requires Sound(db) && |path| >= 2 && RenewalPath(db, path)
    ensures path[|path| - 1] in db.born && path[0] in db.born
    ensures db.born[path[|path| - 1]] < db.born[path[0]]
    ensures path[|path| - 1] != path[0]
    decreases |path|
  {
    assert SoundLink(db, path[0]);
    if |path| == 2 {
    } else {
      NoRenewalCycle(db, path[1..]);
    }
  }

  // --------------------------------------------------- the two updates that name an id only

  /** What the update of an attach may find for the lifecycle to be kept. */
  predicate AttachInTime(now: Db, id: Id, cert: Cert) {
    id !in now.jobs || now.jobs[id].status.Pending?
    || (now.jobs[id].status.Issued? && now.jobs[id].cert == Some(cert))
  }

  predicate RevokeInTime(now: Db, id: Id) {
    !(id in now.jobs && now.jobs[id].status.Expired?)
  }

  /** _attach_signed_cert read the job pending and the keys equal in state `before`.
      Its update, which names the id only, keeps the lifecycle if and only if the
      job is then still pending, or gone, or was issued the same certificate. */
  lemma LateAttach(before: Db, now: Db, id: Id, cert: Cert)
    requires Sound(before) && Sound(now) && Evolves(before, now)
    requires id in before.jobs && before.jobs[id].status.Pending? && Matches(before.jobs[id].csrKey, cert)
    ensures Sound(Exec(now, Attach(id, cert))) && Evolves(now, Exec(now, Attach(id, cert))) <==>
            AttachInTime(now, id, cert)
  {
    var after := Exec(now, Attach(id, cert));
    if id !in now.jobs {
      assert after == now;
    } else {
      assert id in before.born by { assert SoundLink(before, id); }
      assert Onward(before.jobs[id], now.jobs[id]) && SoundLink(now, id);
      if now.jobs[id].status.Pending? {
        StatementKeeps(now, Attach(id, cert));
      } else if now.jobs[id].status.Issued? && now.jobs[id].cert == Some(cert) {
        assert after.jobs == now.jobs;
      } else {
        assert !Onward(now.jobs[id], after.jobs[id]);
      }
    }
  }

  /** revoke_job read the job issued in state `before`. Its update keeps the
      lifecycle if and only if the job has not meanwhile expired. */
  lemma LateRevoke(before: Db, now: Db, id: Id)
    requires Sound(before) && Sound(now) && Evolves(before, now)
    requires id in before.jobs && before.jobs[id].status.Issued?
    ensures Sound(Exec(now, Revoke(id))) && Evolves(now, Exec(now, Revoke(id))) <==> RevokeInTime(now, id)
  {
    var after := Exec(now, Revoke(id));
    if id in now.jobs {
      assert id in before.born by { assert SoundLink(before, id); }
      assert Onward(before.jobs[id], now.jobs[id]) && SoundLink(now, id);
      if now.jobs[id].status.Issued? {
        StatementKeeps(now, Revoke(id));
      } else if now.jobs[id].status.Expired? {
        assert !Onward(now.jobs[id], after.jobs[id]);
      } else {
        assert after.jobs == now.jobs;
      }
    } else {
      assert after == now;
    }
  }

  /** So a cancellation between the two statements of an attach is undone: the
      requester is told the job is cancelled, and it ends issued. */
  lemma CancelledThenIssued(db: Db, id: Id, cert: Cert)
    requires Sound(db) && id in db.jobs && db.jobs[id].status.Pending? && Matches(db.jobs[id].csrKey, cert)
    ensures var cancelled := Exec(db, Close(id, Cancelled));
      && Sound(cancelled) && Evolves(db, cancelled) && cancelled.jobs[id].status.Cancelled?
      && Exec(cancelled, Attach(id, cert)).jobs[id].status.Issued?
      && !Evolves(cancelled, Exec(cancelled, Attach(id, cert)))
  {
    var cancelled := Exec(db, Close(id, Cancelled));
    StatementKeeps(db, Close(id, Cancelled));
    LateAttach(db, cancelled, id, cert);
    assert SoundLink(db, id);
    assert !Onward(cancelled.jobs[id], Exec(cancelled, Attach(id, cert)).jobs[id]);
  }
}
