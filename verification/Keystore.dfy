/** Where a server-generated private key lives (backend/keystore.py): the host
    file the helper wrote, the vault entry of the job, and the job row that leads
    to one of them. Every operation is given as the list of stores it passes
    through, so that each prefix is a point where the process may stop. */
module Keystore {
  import opened Wrappers
  import Text

  type JobId = string
  type Name = string
  type Pem = string

  datatype Storage = Unset | OnHost | InVault | ReturnOnce | Returned

  /** The key columns of a job row. vaultPath holds the last segment of the
      stored path, which is what a read uses. */
  datatype Row = Row(hasLocalKey: bool, localKeyName: Option<Name>, vaultPath: Option<JobId>, storage: Storage)

  datatype Store = Store(host: map<Name, Pem>, vault: map<JobId, Pem>, jobs: map<JobId, Row>)

  /** A vault write either works or raises, with or without effect. */
  datatype Put = Stored | Failed(tookEffect: bool)

  predicate Blank(pem: Pem) {
    forall c :: c in pem ==> Text.IsSpace(c)
  }

  // ----------------------------------------------------------------- single steps

  function PutKey(s: Store, j: JobId, pem: Pem, put: Put): Store {
    if put.Stored? || put.tookEffect then s.(vault := s.vault[j := pem]) else s
  }

  function Shred(s: Store, name: Name, worked: bool): Store {
    if worked then s.(host := s.host - {name}) else s
  }

  function Destroy(s: Store, j: JobId, worked: bool): Store {
    if worked then s.(vault := s.vault - {j}) else s
  }

  function SetRow(s: Store, j: JobId, row: Row): Store {
    if j in s.jobs then s.(jobs := s.jobs[j := row]) else s
  }

  function After(s: Store, steps: seq<Store>): Store {
    if steps == [] then s else steps[|steps| - 1]
  }

  // ------------------------------------------------------------------- operations

  /** What the outside does during one key move: whether the helper can read the
      file, what becomes of the vault write, whether the shred works. */
  datatype Move = Move(readable: bool, put: Put, shredded: bool)

  predicate CanRead(s: Store, name: Name, readable: bool) {
    readable && name in s.host && !Blank(s.host[name])
  }

  /** secure_after_generate. */
  function SecureSteps(s: Store, j: JobId, name: Name, mode: Storage, vaultUp: bool, m: Move): seq<Store>
    requires j in s.jobs
  {
    var kept := s.jobs[j].(storage := OnHost);
    if mode == OnHost || name == "" || !vaultUp || !CanRead(s, name, m.readable) then [SetRow(s, j, kept)]
    else
      var s1 := PutKey(s, j, s.host[name], m.put);
      if m.put.Failed? then [s1, SetRow(s1, j, kept)]
      else
        var s2 := Shred(s1, name, m.shredded);
        [s1, s2, SetRow(s2, j, s.jobs[j].(storage := mode, vaultPath := Some(j)))]
  }

  /** A job created with its key on the host, and secured at once. */
  function GenerateSteps(s: Store, j: JobId, name: Name, pem: Pem, mode: Storage, vaultUp: bool, m: Move): seq<Store> {
    var filed := s.(host := s.host[name := pem]);
    var created := filed.(jobs := filed.jobs[j := Row(true, Some(name), None, Unset)]);
    [filed, created] + SecureSteps(created, j, name, mode, vaultUp, m)
  }

  /** fetch_for_job: the key handed out and the stores passed through. */
  function FetchSteps(s: Store, j: JobId, vaultUp: bool, readable: bool, destroyed: bool): (Option<Pem>, seq<Store>)
    requires j in s.jobs
  {
    var row := s.jobs[j];
    match row.vaultPath
    case Some(v) =>
      if !vaultUp || v !in s.vault then (None, [])
      else if s.vault[v] != "" && row.storage == ReturnOnce then
        var s1 := Destroy(s, v, destroyed);
        (Some(s.vault[v]), [s1, SetRow(s1, j, row.(vaultPath := None, hasLocalKey := false, storage := Returned))])
      else (Some(s.vault[v]), [])
    case None =>
      if row.hasLocalKey && row.localKeyName.Some? && row.localKeyName.value != "" && readable
         && row.localKeyName.value in s.host
      then (Some(s.host[row.localKeyName.value]), []) else (None, [])
  }

  predicate HostStored(s: Store, j: JobId) {
    j in s.jobs && s.jobs[j].hasLocalKey && s.jobs[j].localKeyName.Some? && s.jobs[j].vaultPath.None?
  }

  function HostStoredJobs(s: Store): (r: set<JobId>)
    ensures forall j :: j in r <==> j in s.jobs && s.jobs[j].hasLocalKey && s.jobs[j].localKeyName.Some?
                                    && s.jobs[j].vaultPath.None?
  {
    set j | j in s.jobs && HostStored(s, j)
  }

  /** A sweep has selected these rows. */
  ghost predicate Selected(s: Store, rows: seq<JobId>) {
    && (forall i :: 0 <= i < |rows| ==> HostStored(s, rows[i]))
    && forall i, k :: 0 <= i < k < |rows| ==> rows[i] != rows[k]
  }

  /** How the move of one key ends: its file is gone, the vault refused it, or it moved. */
  datatype MoveOutcome = Gone | Refused | Moved

  function Outcome(s: Store, j: JobId, m: Move): MoveOutcome {
    if !HostStored(s, j) || !CanRead(s, s.jobs[j].localKeyName.value, m.readable) then Gone
    else if m.put.Failed? then Refused else Moved
  }

  /** One job of migrate_host_keys. */
  function MigrateSteps(s: Store, j: JobId, m: Move): seq<Store> {
    if !HostStored(s, j) then []
    else
      var row := s.jobs[j];
      var name := row.localKeyName.value;
      match Outcome(s, j, m)
      case Gone => [SetRow(s, j, row.(hasLocalKey := false))]
      case Refused => [PutKey(s, j, s.host[name], m.put)]
      case Moved =>
        var s1 := PutKey(s, j, s.host[name], m.put);
        var s2 := Shred(s1, name, m.shredded);
        [s1, s2, SetRow(s2, j, row.(vaultPath := Some(j), storage := InVault))]
  }

  datatype Sweep = Sweep(store: Store, steps: seq<Store>, migrated: nat, failed: nat)

  /** A sweep after one more row. */
  function SweepMore(w: Sweep, j: JobId, m: Move): Sweep {
    var steps, o := MigrateSteps(w.store, j, m), Outcome(w.store, j, m);
    Sweep(After(w.store, steps), w.steps + steps,
          w.migrated + (if o.Moved? then 1 else 0), w.failed + if o.Refused? then 1 else 0)
  }

  /** migrate_host_keys over the rows, in order. */
  function SweepOver(s: Store, rows: seq<JobId>, moves: seq<Move>): Sweep
    requires |moves| == |rows|
  {
    if rows == [] then Sweep(s, [], 0, 0)
    else SweepMore(SweepOver(s, rows[..|rows| - 1], moves[..|rows| - 1]), rows[|rows| - 1], moves[|rows| - 1])
  }

  lemma MigrateLeavesOthers(s: Store, j: JobId, m: Move)
    ensures After(s, MigrateSteps(s, j, m)).jobs.Keys == s.jobs.Keys
    ensures forall k :: k in s.jobs && k != j ==> After(s, MigrateSteps(s, j, m)).jobs[k] == s.jobs[k]
  {
  }

  /** A sweep changes the rows it selected only, and its store is that of its last step. */
  lemma {:induction false} SweepLeavesOthers(s: Store, rows: seq<JobId>, moves: seq<Move>)
    requires |moves| == |rows|
    ensures SweepOver(s, rows, moves).store == After(s, SweepOver(s, rows, moves).steps)
    ensures SweepOver(s, rows, moves).store.jobs.Keys == s.jobs.Keys
    ensures forall k :: k in s.jobs && k !in rows ==> SweepOver(s, rows, moves).store.jobs[k] == s.jobs[k]
  {
    if rows == [] {
    } else {
      var n := |rows| - 1;
      var before := SweepOver(s, rows[..n], moves[..n]);
      SweepLeavesOthers(s, rows[..n], moves[..n]);
      MigrateLeavesOthers(before.store, rows[n], moves[n]);
    }
  }

  /** The last row of a sweep comes after all the others, which leave it as it was. */
  lemma SweepUnfold(s: Store, rows: seq<JobId>, moves: seq<Move>)
    requires Selected(s, rows) && |moves| == |rows| && rows != []
    ensures var n := |rows| - 1;
      && Selected(s, rows[..n]) && HostStored(SweepOver(s, rows[..n], moves[..n]).store, rows[n])
      && SweepOver(s, rows, moves) == SweepMore(SweepOver(s, rows[..n], moves[..n]), rows[n], moves[n])
  {
    SweepLeavesOthers(s, rows[..|rows| - 1], moves[..|rows| - 1]);
    assert rows[|rows| - 1] !in rows[..|rows| - 1];
  }

  /** Each step of a sweep is one of the rows before the last, or one of the last row. */
  lemma SweepStepAt(s: Store, rows: seq<JobId>, moves: seq<Move>, i: nat)
    requires Selected(s, rows) && |moves| == |rows| && i < |SweepOver(s, rows, moves).steps|
    ensures rows != []
    ensures var n := |rows| - 1;
      var before := SweepOver(s, rows[..n], moves[..n]);
      && Selected(s, rows[..n]) && HostStored(before.store, rows[n]) && before.store == After(s, before.steps)
      && if i < |before.steps| then SweepOver(s, rows, moves).steps[i] == before.steps[i]
         else var k := i - |before.steps|;
           k < |MigrateSteps(before.store, rows[n], moves[n])|
           && SweepOver(s, rows, moves).steps[i] == MigrateSteps(before.store, rows[n], moves[n])[k]
  {
    SweepUnfold(s, rows, moves);
    SweepLeavesOthers(s, rows[..|rows| - 1], moves[..|rows| - 1]);
  }

  /** The helper reads and shreds, and the vault stores. */
  predicate Works(m: Move) {
    m.readable && m.put.Stored? && m.shredded
  }

  /** The file of a job's key is off the host, or held nothing; a key that was there is in
      the vault, where the row leads. */
  predicate Swept(s: Store, t: Store, j: JobId) {
    j in s.jobs && s.jobs[j].localKeyName.Some?
    && var name := s.jobs[j].localKeyName.value;
       (name in t.host ==> forall c :: c in t.host[name] ==> Text.IsSpace(c))
       && j in t.jobs
       && (t.jobs[j].hasLocalKey ==> t.jobs[j].vaultPath == Some(j) && j in t.vault
                                     && name in s.host && t.vault[j] == s.host[name])
  }

  lemma MigrateWorks(s: Store, t: Store, j: JobId, m: Move)
    requires HostStored(t, j) && Works(m) && (forall n :: n in t.host ==> n in s.host && t.host[n] == s.host[n])
    requires j in s.jobs && s.jobs[j].localKeyName == t.jobs[j].localKeyName
    ensures var u := After(t, MigrateSteps(t, j, m));
      && Swept(s, u, j) && (forall n :: n in u.host ==> n in t.host && u.host[n] == t.host[n])
      && !Outcome(t, j, m).Refused?
  {
  }

  lemma SweptStays(s: Store, t: Store, u: Store, j: JobId)
    requires Swept(s, t, j) && j in u.jobs && u.jobs[j] == t.jobs[j]
    requires forall n :: n in u.host ==> n in t.host && u.host[n] == t.host[n]
    requires j in t.vault ==> j in u.vault && u.vault[j] == t.vault[j]
    ensures Swept(s, u, j)
  {
  }

  /** When reads, writes and shreds work, a sweep leaves none of the keys it selected on
      the host, and each in the vault under its job. */
  lemma {:induction false} SweepWorks(s: Store, rows: seq<JobId>, moves: seq<Move>)
    requires Selected(s, rows) && |moves| == |rows| && forall i :: 0 <= i < |rows| ==> Works(moves[i])
    ensures var w := SweepOver(s, rows, moves);
      && w.failed == 0 && (forall i :: 0 <= i < |rows| ==> Swept(s, w.store, rows[i]))
      && (forall n :: n in w.store.host ==> n in s.host && w.store.host[n] == s.host[n])
  {
    if rows == [] {
    } else {
      var n := |rows| - 1;
      var init, t := rows[..n], SweepOver(s, rows[..n], moves[..n]).store;
      SweepWorks(s, init, moves[..n]);
      SweepUnfold(s, rows, moves);
      SweepLeavesOthers(s, init, moves[..n]);
      assert rows[n] !in init && s.jobs[rows[n]] == t.jobs[rows[n]];
      OneMoreSwept(s, t, init, rows[n], moves[n]);
      forall i | 0 <= i < |rows| ensures Swept(s, After(t, MigrateSteps(t, rows[n], moves[n])), rows[i]) {
        if i < n { assert rows[i] == init[i]; }
      }
    }
  }

  lemma OneMoreSwept(s: Store, t: Store, init: seq<JobId>, j: JobId, m: Move)
    requires j !in init && HostStored(t, j) && Works(m) && j in s.jobs && s.jobs[j] == t.jobs[j]
    requires forall i :: 0 <= i < |init| ==> Swept(s, t, init[i])
    requires forall n :: n in t.host ==> n in s.host && t.host[n] == s.host[n]
    ensures var u := After(t, MigrateSteps(t, j, m));
      && Swept(s, u, j) && (forall i :: 0 <= i < |init| ==> Swept(s, u, init[i]))
      && (forall n :: n in u.host ==> n in s.host && u.host[n] == s.host[n]) && !Outcome(t, j, m).Refused?
  {
    MigrateWorks(s, t, j, m);
    forall i | 0 <= i < |init| ensures Swept(s, After(t, MigrateSteps(t, j, m)), init[i]) {
      SweptThrough(s, t, init[i], j, m);
    }
  }

  lemma SweptThrough(s: Store, t: Store, j: JobId, k: JobId, m: Move)
    requires Swept(s, t, j) && j != k
    ensures Swept(s, After(t, MigrateSteps(t, k, m)), j)
  {
    MigrateLeavesOthers(t, k, m);
    MigrateKeepsRest(t, k, m);
    SweptStays(s, t, After(t, MigrateSteps(t, k, m)), j);
  }

  lemma MigrateKeepsRest(t: Store, k: JobId, m: Move)
    ensures var u := After(t, MigrateSteps(t, k, m));
      && (forall n :: n in u.host ==> n in t.host && u.host[n] == t.host[n])
      && (forall v :: v != k && v in t.vault ==> v in u.vault && u.vault[v] == t.vault[v])
  {
  }

  /** The row a lookup by key name finds, if any. */
  ghost predicate Resolves(s: Store, name: Name, pick: Option<JobId>) {
    match pick
    case Some(j) => j in s.jobs && s.jobs[j].localKeyName == Some(name)
    case None => forall j :: j in s.jobs ==> s.jobs[j].localKeyName != Some(name)
  }

  /** admin_delete_orphan_key: refused while any job row carries the name. */
  ghost function OrphanSteps(s: Store, name: Name, worked: bool): (r: seq<Store>)
    ensures forall j :: j in s.jobs && s.jobs[j].localKeyName == Some(name) ==> r == []
  {
    if exists j :: j in s.jobs && s.jobs[j].localKeyName == Some(name) then [] else [Shred(s, name, worked)]
  }

  // ------------------------------------------------------------------- the service

  datatype Location = AtHost | AtVault | Given

  /** The host store, the vault and the job rows as the operations update them.
      `history` records the store after every step. */
  class KeyService {
    var host: map<Name, Pem>
    var vault: map<JobId, Pem>
    var jobs: map<JobId, Row>
    ghost var history: seq<Store>

    function Now(): Store
      reads this
    {
      Store(host, vault, jobs)
    }

    constructor ()
      ensures Now() == Store(map[], map[], map[]) && history == []
    {
      host, vault, jobs, history := map[], map[], map[], [];
    }

    method Put(j: JobId, pem: Pem, put: Put)
      modifies this
      ensures Now() == PutKey(old(Now()), j, pem, put)
      ensures history == old(history) + [Now()]
    {
      if put.Stored? || put.tookEffect { vault := vault[j := pem]; }
      history := history + [Now()];
    }

    method DeleteKey(name: Name, worked: bool)
      modifies this
      ensures Now() == Shred(old(Now()), name, worked)
      ensures history == old(history) + [Now()]
    {
      if worked { host := host - {name}; }
      history := history + [Now()];
    }

    method DestroyKey(j: JobId, worked: bool)
      modifies this
      ensures Now() == Destroy(old(Now()), j, worked)
      ensures history == old(history) + [Now()]
    {
      if worked { vault := vault - {j}; }
      history := history + [Now()];
    }

    method SetJob(j: JobId, row: Row)
      modifies this
      ensures Now() == SetRow(old(Now()), j, row)
      ensures history == old(history) + [Now()]
    {
      if j in jobs { jobs := jobs[j := row]; }
      history := history + [Now()];
    }

    /** Applies the storage policy to a freshly generated key. Any failure leaves
        the key on the host. */
    method SecureAfterGenerate(j: JobId, name: Name, mode: Storage, vaultUp: bool, m: Move) returns (where_: Location)
      requires j in jobs
      modifies this
      ensures history == old(history) + SecureSteps(old(Now()), j, name, mode, vaultUp, m)
      ensures Now() == After(old(Now()), SecureSteps(old(Now()), j, name, mode, vaultUp, m))
      ensures where_ == AtHost <==>
        !(mode != OnHost && name != "" && vaultUp && m.readable && name in old(host)
          && (exists c :: c in old(host)[name] && !Text.IsSpace(c)) && m.put.Stored?)
      ensures where_ == AtHost ==> host == old(host) && jobs == old(jobs)[j := old(jobs)[j].(storage := OnHost)]
      ensures where_ != AtHost ==> vault == old(vault)[j := old(host)[name]]
      ensures where_ != AtHost ==> host == if m.shredded then old(host) - {name} else old(host)
      ensures where_ != AtHost ==> jobs == old(jobs)[j := old(jobs)[j].(storage := mode, vaultPath := Some(j))]
      ensures where_ == Given <==> where_ != AtHost && mode == ReturnOnce
    {
      var row := jobs[j];
      if mode == OnHost || name == "" || !vaultUp || !CanRead(Now(), name, m.readable) {
        SetJob(j, row.(storage := OnHost));
        return AtHost;
      }
      Put(j, host[name], m.put);
      if m.put.Failed? {
        SetJob(j, row.(storage := OnHost));
        return AtHost;
      }
      DeleteKey(name, m.shredded);
      SetJob(j, row.(storage := mode, vaultPath := Some(j)));
      where_ := if mode == ReturnOnce then Given else AtVault;
    }

    /** The private key of a job, from the vault or the host. A one-time key is
        destroyed, as far as the vault lets it, and its row struck off. */
    method FetchForJob(j: JobId, vaultUp: bool, readable: bool, destroyed: bool) returns (pem: Option<Pem>)
      requires j in jobs
      modifies this
      ensures pem == FetchSteps(old(Now()), j, vaultUp, readable, destroyed).0
      ensures history == old(history) + FetchSteps(old(Now()), j, vaultUp, readable, destroyed).1
      ensures Now() == After(old(Now()), FetchSteps(old(Now()), j, vaultUp, readable, destroyed).1)
      ensures var row := old(jobs)[j];
        match row.vaultPath
        case Some(v) =>
          pem == (if vaultUp && v in old(vault) then Some(old(vault)[v]) else None) && host == old(host)
          && (if vaultUp && v in old(vault) && old(vault)[v] != "" && row.storage == ReturnOnce
              then vault == (if destroyed then old(vault) - {v} else old(vault))
                   && jobs == old(jobs)[j := row.(vaultPath := None, hasLocalKey := false, storage := Returned)]
              else vault == old(vault) && jobs == old(jobs))
        case None =>
          Now() == old(Now())
          && pem == if row.hasLocalKey && row.localKeyName.Some? && row.localKeyName.value != "" && readable
                       && row.localKeyName.value in host
                    then Some(host[row.localKeyName.value]) else None
    {
      var row := jobs[j];
      if row.vaultPath.Some? {
        var v := row.vaultPath.value;
        if !vaultUp || v !in vault { return None; }
        pem := Some(vault[v]);
        if vault[v] != "" && row.storage == ReturnOnce {
          DestroyKey(v, destroyed);
          SetJob(j, row.(vaultPath := None, hasLocalKey := false, storage := Returned));
        }
        return;
      }
      if row.hasLocalKey && row.localKeyName.Some? && row.localKeyName.value != "" && readable
         && row.localKeyName.value in host {
        return Some(host[row.localKeyName.value]);
      }
      return None;
    }

    /** The key under a name: through the job that carries it, if any, whose key
        may have moved, else straight from the host. */
    method FetchByName(name: Name, vaultUp: bool, readable: bool, destroyed: bool)
      returns (pem: Option<Pem>, ghost pick: Option<JobId>)
      modifies this
      ensures Resolves(old(Now()), name, pick)
      ensures pick.Some? ==>
        && pem == FetchSteps(old(Now()), pick.value, vaultUp, readable, destroyed).0
        && history == old(history) + FetchSteps(old(Now()), pick.value, vaultUp, readable, destroyed).1
        && Now() == After(old(Now()), FetchSteps(old(Now()), pick.value, vaultUp, readable, destroyed).1)
      ensures pick.None? ==> Now() == old(Now()) && history == old(history)
      ensures pick.None? ==> pem == if readable && name in host then Some(host[name]) else None
    {
      if j :| j in jobs && jobs[j].localKeyName == Some(name) {
        pick := Some(j);
        pem := FetchForJob(j, vaultUp, readable, destroyed);
      } else {
        pick := None;
        pem := if readable && name in host then Some(host[name]) else None;
      }
    }

    /** Deletes a key file no job row names. */
    method DeleteOrphanKey(name: Name, worked: bool) returns (deleted: bool)
      modifies this
      ensures history == old(history) + OrphanSteps(old(Now()), name, worked)
      ensures Now() == After(old(Now()), OrphanSteps(old(Now()), name, worked))
      ensures deleted <==> worked && forall j :: j in old(jobs) ==> old(jobs)[j].localKeyName != Some(name)
      ensures host == (if deleted then old(host) - {name} else old(host)) && vault == old(vault) && jobs == old(jobs)
    {
      if exists j :: j in jobs && jobs[j].localKeyName == Some(name) { return false; }
      DeleteKey(name, worked);
      deleted := worked;
    }

    /** Sweeps the selected host-stored keys into the vault. */
    method MigrateHostKeys(rows: seq<JobId>, moves: seq<Move>) returns (migrated: nat, failed: nat, scanned: nat)
      requires Selected(Now(), rows) && |moves| == |rows|
      modifies this
      ensures var sweep := SweepOver(old(Now()), rows, moves);
        && history == old(history) + sweep.steps && Now() == sweep.store
        && migrated == sweep.migrated && failed == sweep.failed && scanned == |rows|
      ensures (forall i :: 0 <= i < |rows| ==> Works(moves[i])) ==>
        failed == 0 && forall i :: 0 <= i < |rows| ==> Swept(old(Now()), Now(), rows[i])
    {
      migrated, failed, scanned := 0, 0, |rows|;
      ghost var s, before := Now(), history;
      ghost var done := Sweep(s, [], 0, 0);
      for i := 0 to |rows|
        invariant done == SweepOver(s, rows[..i], moves[..i])
        invariant history == before + done.steps && Now() == done.store
        invariant migrated == done.migrated && failed == done.failed
      {
        SweepNext(s, rows, moves, i);
        var outcome := MigrateOne(rows[i], moves[i]);
        StepsMore(before, done.steps, MigrateSteps(done.store, rows[i], moves[i]));
        done := SweepMore(done, rows[i], moves[i]);
        if outcome == Moved { migrated := migrated + 1; }
        if outcome == Refused { failed := failed + 1; }
      }
      assert rows[..|rows|] == rows && moves[..|rows|] == moves;
      if forall i :: 0 <= i < |rows| ==> Works(moves[i]) { SweepWorks(s, rows, moves); }
    }

    method MigrateOne(j: JobId, m: Move) returns (outcome: MoveOutcome)
      requires HostStored(Now(), j)
      modifies this
      ensures history == old(history) + MigrateSteps(old(Now()), j, m)
      ensures Now() == After(old(Now()), MigrateSteps(old(Now()), j, m))
      ensures outcome == Outcome(old(Now()), j, m)
      ensures var name := old(jobs)[j].localKeyName.value;
        var found := m.readable && name in old(host) && exists c :: c in old(host)[name] && !Text.IsSpace(c);
        && (outcome.Gone? <==> !found) && (outcome.Moved? <==> found && m.put.Stored?)
        && match outcome
           case Gone => host == old(host) && vault == old(vault)
                        && jobs == old(jobs)[j := old(jobs)[j].(hasLocalKey := false)]
           case Refused => host == old(host) && jobs == old(jobs)
           case Moved =>
             && host == (if m.shredded then old(host) - {name} else old(host))
             && vault == old(vault)[j := old(host)[name]]
             && jobs == old(jobs)[j := old(jobs)[j].(vaultPath := Some(j), storage := InVault)]
    {
      var row := jobs[j];
      var name := row.localKeyName.value;
      if !CanRead(Now(), name, m.readable) {
        SetJob(j, row.(hasLocalKey := false));
        return Gone;
      }
      Put(j, host[name], m.put);
      if m.put.Failed? { return Refused; }
      DeleteKey(name, m.shredded);
      SetJob(j, row.(vaultPath := Some(j), storage := InVault));
      return Moved;
    }
  }

  lemma SweepNext(s: Store, rows: seq<JobId>, moves: seq<Move>, i: nat)
    requires Selected(s, rows) && |moves| == |rows| && i < |rows|
    ensures HostStored(SweepOver(s, rows[..i], moves[..i]).store, rows[i])
    ensures SweepOver(s, rows[..i + 1], moves[..i + 1])
         == SweepMore(SweepOver(s, rows[..i], moves[..i]), rows[i], moves[i])
  {
    SweepUnfold(s, rows[..i + 1], moves[..i + 1]);
    assert rows[..i + 1][..i] == rows[..i] && moves[..i + 1][..i] == moves[..i];
  }

  lemma StepsMore(a: seq<Store>, b: seq<Store>, c: seq<Store>)
    ensures a + b + c == a + (b + c)
  {
  }
}
