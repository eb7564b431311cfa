/** Runs of key operations, each carried out in full or cut off at some step. */
module KeyRuns {
  import opened Wrappers
  import opened Keystore
  import opened KeyCustody

  datatype Call = Call(op: Op, cut: nat)

  ghost predicate LegalCall(c: Custody, call: Call) {
    Legal(c, call.op) && call.cut <= |Steps(c, call.op)|
  }

  ghost function Then(c: Custody, call: Call): Custody
    requires LegalCall(c, call)
  {
    Next(c, call.op, call.cut)
  }

  ghost predicate LegalRun(c: Custody, run: seq<Call>)
    decreases |run|
  {
    run == [] || (LegalCall(c, run[0]) && LegalRun(Then(c, run[0]), run[1..]))
  }

  ghost function RunOf(c: Custody, run: seq<Call>): Custody
    requires LegalRun(c, run)
    decreases |run|
  {
    if run == [] then c else RunOf(Then(c, run[0]), run[1..])
  }

  ghost predicate Completed(c: Custody, call: Call)
    requires LegalCall(c, call)
  {
    call.cut == |Steps(c, call.op)|
  }

  ghost predicate AllCompleted(c: Custody, run: seq<Call>)
    requires LegalRun(c, run)
    decreases |run|
  {
    run == [] || (Completed(c, run[0]) && AllCompleted(Then(c, run[0]), run[1..]))
  }

  /** No run of operations, interrupted anywhere, loses a key. */
  lemma {:induction false} NeverLostInRun(c: Custody, run: seq<Call>)
    requires Inv(c) && LegalRun(c, run)
    ensures Inv(RunOf(c, run))
    decreases |run|
  {
    if run == [] {
    } else {
      NeverLost(c, run[0].op, run[0].cut);
      NeverLostInRun(Then(c, run[0]), run[1..]);
    }
  }

  // ----------------------------------------------------- a flagged job leads to its key

  /** Following the row of job j arrives at the key. */
  predicate Leads(s: Store, j: JobId, pem: Pem) {
    j in s.jobs &&
    match s.jobs[j].vaultPath
    case Some(v) => v in s.vault && s.vault[v] == pem
    case None => s.jobs[j].localKeyName.Some? && s.jobs[j].localKeyName.value in s.host
                 && s.host[s.jobs[j].localKeyName.value] == pem
  }

  ghost predicate FlaggedLead(c: Custody) {
    forall j :: j in c.born && j in c.s.jobs && c.s.jobs[j].hasLocalKey ==> Leads(c.s, j, c.born[j])
  }

  lemma LeadTouch(c: Custody, t: Store, j: JobId, name: Name, born: map<JobId, Pem>, spent: set<JobId>)
    requires Inv(c) && FlaggedLead(c) && j in c.born && NameOf(c.s, j, name)
    requires Touches(c.s, t, j, name)
    requires t.jobs[j].hasLocalKey ==> Leads(t, j, c.born[j])
    ensures FlaggedLead(Custody(t, c.born, spent))
  {
    forall k | k in c.born && k != j && t.jobs[k].hasLocalKey ensures Leads(t, k, c.born[k]) {
      assert Held(c.s, k, c.born[k], k in c.spent) && Leads(c.s, k, c.born[k]);
      assert c.s.jobs[k].localKeyName != Some(name);
    }
  }

  lemma SecureEnds(s: Store, j: JobId, name: Name, mode: Storage, up: bool, m: Move)
    requires NameOf(s, j, name)
    ensures var t := After(s, SecureSteps(s, j, name, mode, up, m));
      Touches(s, t, j, name)
      && if mode == OnHost || name == "" || !up || !CanRead(s, name, m.readable) || m.put.Failed?
         then t.jobs[j] == s.jobs[j].(storage := OnHost) && t.host == s.host
         else
           t.jobs[j] == s.jobs[j].(storage := mode, vaultPath := Some(j)) && j in t.vault && t.vault[j] == s.host[name]
  {
  }

  lemma SecureLeads(c: Custody, j: JobId, name: Name, mode: Storage, up: bool, m: Move)
    requires Inv(c) && FlaggedLead(c) && j in c.born && NameOf(c.s, j, name)
    requires c.s.jobs[j].vaultPath == None && c.s.jobs[j].hasLocalKey
    ensures FlaggedLead(c.(s := After(c.s, SecureSteps(c.s, j, name, mode, up, m))))
  {
    SecureEnds(c.s, j, name, mode, up, m);
    assert Leads(c.s, j, c.born[j]);
    LeadTouch(c, After(c.s, SecureSteps(c.s, j, name, mode, up, m)), j, name, c.born, c.spent);
  }

  lemma MigrateEnds(s: Store, j: JobId, m: Move)
    requires HostStored(s, j)
    ensures var t, name := After(s, MigrateSteps(s, j, m)), s.jobs[j].localKeyName.value;
      Touches(s, t, j, name)
      && match Outcome(s, j, m)
         case Gone => t.jobs[j] == s.jobs[j].(hasLocalKey := false)
         case Refused => t.jobs == s.jobs && t.host == s.host
         case Moved =>
           t.jobs[j] == s.jobs[j].(vaultPath := Some(j), storage := InVault)
           && j in t.vault && t.vault[j] == s.host[name]
  {
  }

  lemma MigrateLeads(c: Custody, j: JobId, m: Move)
    requires Inv(c) && FlaggedLead(c) && HostStored(c.s, j)
    ensures FlaggedLead(c.(s := After(c.s, MigrateSteps(c.s, j, m))))
  {
    MigrateEnds(c.s, j, m);
    assert Leads(c.s, j, c.born[j]);
    LeadTouch(c, After(c.s, MigrateSteps(c.s, j, m)), j, c.s.jobs[j].localKeyName.value, c.born, c.spent);
  }

  lemma {:induction false} SweepLeads(c: Custody, rows: seq<JobId>, moves: seq<Move>)
    requires Inv(c) && FlaggedLead(c) && Selected(c.s, rows) && |moves| == |rows|
    ensures Inv(c.(s := SweepOver(c.s, rows, moves).store))
    ensures FlaggedLead(c.(s := SweepOver(c.s, rows, moves).store))
    decreases |rows|
  {
    if rows == [] {
    } else {
      SweepUnfold(c.s, rows, moves);
      var n := |rows| - 1;
      SweepLeads(c, rows[..n], moves[..n]);
      var d := c.(s := SweepOver(c.s, rows[..n], moves[..n]).store);
      MigrateLeads(d, rows[n], moves[n]);
      var steps := MigrateSteps(d.s, rows[n], moves[n]);
      MigrateKeeps(d, rows[n], moves[n], |steps| - 1);
    }
  }

  lemma FetchLeads(c: Custody, j: JobId, up: bool, readable: bool, destroyed: bool, spent: set<JobId>)
    requires Inv(c) && FlaggedLead(c) && j in c.s.jobs
    ensures FlaggedLead(Custody(After(c.s, FetchSteps(c.s, j, up, readable, destroyed).1), c.born, spent))
  {
    var steps := FetchSteps(c.s, j, up, readable, destroyed).1;
    if steps != [] {
      LeadTouch(c, steps[1], j, c.s.jobs[j].localKeyName.value, c.born, spent);
    }
  }

  lemma GenerateLeads(c: Custody, op: Op)
    requires Inv(c) && FlaggedLead(c) && Legal(c, op) && op.Generate?
    ensures FlaggedLead(Next(c, op, |Steps(c, op)|))
  {
    GenerateKeeps(c, op, 2);
    var d := Next(c, op, 2);
    forall j | j in d.born && d.s.jobs[j].hasLocalKey ensures Leads(d.s, j, d.born[j]) {
      if j != op.j {
        assert Held(c.s, j, c.born[j], j in c.spent) && Leads(c.s, j, c.born[j]);
        assert c.s.jobs[j].localKeyName != Some(op.name);
      }
    }
    SecureLeads(d, op.j, op.name, op.mode, op.vaultUp, op.m);
    var steps := SecureSteps(d.s, op.j, op.name, op.mode, op.vaultUp, op.m);
    assert Steps(c, op) == [Steps(c, op)[0], d.s] + steps;
  }

  /** Orphan deletion leaves every job that led to its key leading to it. */
  lemma OrphanLeads(s: Store, name: Name, worked: bool, j: JobId, pem: Pem)
    requires Leads(s, j, pem)
    ensures Leads(After(s, OrphanSteps(s, name, worked)), j, pem)
  {
  }

  /** Where a completed operation ends. */
  lemma CompletedStore(c: Custody, op: Op)
    requires Legal(c, op)
    ensures Next(c, op, |Steps(c, op)|).s == After(c.s, Steps(c, op))
    ensures !op.Generate? ==> Next(c, op, |Steps(c, op)|).born == c.born
    ensures op.Migrate? ==> Next(c, op, |Steps(c, op)|) == c.(s := SweepOver(c.s, op.rows, op.moves).store)
  {
    if op.Migrate? { SweepLeavesOthers(c.s, op.rows, op.moves); }
  }

  lemma FetchCallLeads(c: Custody, op: Op)
    requires Inv(c) && FlaggedLead(c) && Legal(c, op) && (op.Fetch? || op.FetchNamed?)
    ensures FlaggedLead(Next(c, op, |Steps(c, op)|))
  {
    CompletedStore(c, op);
    var spent := Next(c, op, |Steps(c, op)|).spent;
    if op.Fetch? {
      FetchLeads(c, op.j, op.vaultUp, op.readable, op.destroyed, spent);
    } else if op.pick.Some? {
      FetchLeads(c, op.pick.value, op.vaultUp, op.readable, op.destroyed, spent);
    }
  }

  lemma OrphanCallLeads(c: Custody, op: Op)
    requires Inv(c) && FlaggedLead(c) && Legal(c, op) && op.DeleteOrphan?
    ensures FlaggedLead(Next(c, op, |Steps(c, op)|))
  {
    CompletedStore(c, op);
    forall j | j in c.born && j in c.s.jobs && c.s.jobs[j].hasLocalKey
      ensures Leads(After(c.s, OrphanSteps(c.s, op.name, op.worked)), j, c.born[j])
    {
      OrphanLeads(c.s, op.name, op.worked, j, c.born[j]);
    }
  }

  /** After every completed operation each job still flagged as having a key leads
      to the key it was created with. */
  lemma BoundaryLeads(c: Custody, op: Op)
    requires Inv(c) && FlaggedLead(c) && Legal(c, op)
    ensures FlaggedLead(Next(c, op, |Steps(c, op)|))
  {
    match op
    case Generate(_, _, _, _, _, _) => GenerateLeads(c, op);
    case Fetch(_, _, _, _) => FetchCallLeads(c, op);
    case FetchNamed(_, _, _, _, _) => FetchCallLeads(c, op);
    case Migrate(rows, moves) =>
      CompletedStore(c, op);
      SweepLeads(c, rows, moves);
    case DeleteOrphan(_, _) => OrphanCallLeads(c, op);
  }

  lemma {:induction false} BoundaryLeadsInRun(c: Custody, run: seq<Call>)
    requires Inv(c) && FlaggedLead(c) && LegalRun(c, run) && AllCompleted(c, run)
    ensures FlaggedLead(RunOf(c, run))
    decreases |run|
  {
    if run == [] {
    } else {
      NeverLost(c, run[0].op, run[0].cut);
      BoundaryLeads(c, run[0].op);
      BoundaryLeadsInRun(Then(c, run[0]), run[1..]);
    }
  }

  /** The helper fails to read a key file only when there is none. */
  predicate HonestHelper(op: Op) {
    match op
    case Generate(_, _, _, _, _, m) => m.readable
    case Migrate(_, moves) => forall i :: 0 <= i < |moves| ==> moves[i].readable
    case _ => true
  }

  /** Every key not yet handed out for its one time is still flagged. */
  ghost predicate Flagged(c: Custody) {
    forall j :: j in c.born && j in c.s.jobs && j !in c.spent ==> c.s.jobs[j].hasLocalKey
  }

  lemma MigrateFlags(c: Custody, j: JobId, m: Move)
    requires Inv(c) && FlaggedLead(c) && Flagged(c) && HostStored(c.s, j) && m.readable
    ensures Flagged(c.(s := After(c.s, MigrateSteps(c.s, j, m))))
  {
    assert Held(c.s, j, c.born[j], j in c.spent) && Leads(c.s, j, c.born[j]);
    assert !Outcome(c.s, j, m).Gone?;
    MigrateEnds(c.s, j, m);
  }

  lemma {:induction false} SweepFlags(c: Custody, rows: seq<JobId>, moves: seq<Move>)
    requires Inv(c) && FlaggedLead(c) && Flagged(c) && Selected(c.s, rows) && |moves| == |rows|
    requires forall i :: 0 <= i < |moves| ==> moves[i].readable
    ensures Flagged(c.(s := SweepOver(c.s, rows, moves).store))
    decreases |rows|
  {
    if rows == [] {
    } else {
      var n := |rows| - 1;
      SweepUnfold(c.s, rows, moves);
      SweepFlags(c, rows[..n], moves[..n]);
      SweepLeads(c, rows[..n], moves[..n]);
      MigrateFlags(c.(s := SweepOver(c.s, rows[..n], moves[..n]).store), rows[n], moves[n]);
    }
  }

  lemma FetchCallFlags(c: Custody, op: Op)
    requires Inv(c) && Flagged(c) && Legal(c, op) && !op.Generate? && !op.Migrate?
    ensures Flagged(Next(c, op, |Steps(c, op)|))
  {
    CompletedStore(c, op);
  }

  /** With such a helper a completed operation clears no flag but that of a key it
      hands out for its one time: together with BoundaryLeads, every other key
      stays reachable through its job. */
  lemma FlagsStay(c: Custody, op: Op)
    requires Inv(c) && FlaggedLead(c) && Flagged(c) && Legal(c, op) && HonestHelper(op)
    ensures Flagged(Next(c, op, |Steps(c, op)|))
  {
    match op
    case Generate(j, name, pem, mode, up, m) =>
      var created := Steps(c, op)[1];
      var steps := SecureSteps(created, j, name, mode, up, m);
      SecureFrame(created, j, name, mode, up, m, |steps| - 1);
    case Migrate(rows, moves) =>
      CompletedStore(c, op);
      SweepFlags(c, rows, moves);
    case _ => FetchCallFlags(c, op);
  }

  // ------------------------------------------------------- one-time keys are one-time

  /** No two jobs share a key, and a host file holding a job's key carries the
      job's key name. */
  ghost predicate Unmixed(c: Custody) {
    && (forall j, k :: j in c.born && k in c.born && j != k ==> c.born[j] != c.born[k])
    && (forall n, j :: n in c.s.host && j in c.born && c.s.host[n] == c.born[j] ==> NameOf(c.s, j, n))
  }

  /** No host file appears or changes, and no job changes its key name. */
  ghost predicate Shrinks(s: Store, t: Store) {
    && (forall n :: n in t.host ==> n in s.host && t.host[n] == s.host[n])
    && t.jobs.Keys == s.jobs.Keys
    && (forall j :: j in s.jobs ==> t.jobs[j].localKeyName == s.jobs[j].localKeyName)
  }

  lemma UnmixedShrinks(c: Custody, t: Store, spent: set<JobId>)
    requires Unmixed(c) && Shrinks(c.s, t)
    ensures Unmixed(Custody(t, c.born, spent))
  {
    forall n, j | n in t.host && j in c.born && t.host[n] == c.born[j] ensures NameOf(t, j, n) {
      assert NameOf(c.s, j, n);
    }
  }

  /** Moving the key of job j changes the row of job j only. */
  ghost predicate OthersKept(s: Store, t: Store, j: JobId) {
    Shrinks(s, t) && forall k :: k in s.jobs && k != j ==> t.jobs[k] == s.jobs[k]
  }

  lemma MigrateFrame(s: Store, j: JobId, m: Move, i: nat)
    requires HostStored(s, j) && i < |MigrateSteps(s, j, m)|
    ensures OthersKept(s, MigrateSteps(s, j, m)[i], j)
  {
  }

  lemma SecureFrame(s: Store, j: JobId, name: Name, mode: Storage, up: bool, m: Move, i: nat)
    requires j in s.jobs && i < |SecureSteps(s, j, name, mode, up, m)|
    ensures OthersKept(s, SecureSteps(s, j, name, mode, up, m)[i], j)
  {
  }

  lemma ShrinksTrans(s: Store, t: Store, u: Store)
    requires Shrinks(s, t) && Shrinks(t, u)
    ensures Shrinks(s, u)
  {
  }

  /** The steps of a sweep leave every file it does not shred and every row it did
      not select as they are. */
  lemma {:induction false} SweepFrame(s: Store, rows: seq<JobId>, moves: seq<Move>, i: nat, j: JobId)
    requires Selected(s, rows) && |moves| == |rows| && i < |SweepOver(s, rows, moves).steps|
    ensures Shrinks(s, SweepOver(s, rows, moves).steps[i])
    ensures j in s.jobs && j !in rows ==> SweepOver(s, rows, moves).steps[i].jobs[j] == s.jobs[j]
    decreases |rows|
  {
    SweepStepAt(s, rows, moves, i);
    var n := |rows| - 1;
    var before := SweepOver(s, rows[..n], moves[..n]);
    if i < |before.steps| {
      SweepFrame(s, rows[..n], moves[..n], i, j);
    } else {
      var step := MigrateSteps(before.store, rows[n], moves[n])[i - |before.steps|];
      MigrateFrame(before.store, rows[n], moves[n], i - |before.steps|);
      assert Shrinks(s, before.store) by {
        if before.steps != [] { SweepFrame(s, rows[..n], moves[..n], |before.steps| - 1, j); }
      }
      ShrinksTrans(s, before.store, step);
      SweepLeavesOthers(s, rows[..n], moves[..n]);
    }
  }

  lemma CreatedUnmixed(c: Custody, op: Op, cut: nat)
    requires Inv(c) && Unmixed(c) && Legal(c, op) && op.Generate? && 0 < cut <= 2
    ensures Unmixed(Next(c, op, cut))
  {
    var d := Next(c, op, cut);
    forall n, j | n in d.s.host && j in d.born && d.s.host[n] == d.born[j] ensures NameOf(d.s, j, n) {
      if j in c.born && n in c.s.host { assert c.s.host[n] == c.born[j] && NameOf(c.s, j, n); }
    }
  }

  lemma GenerateUnmixed(c: Custody, op: Op, cut: nat)
    requires Inv(c) && Unmixed(c) && Legal(c, op) && op.Generate? && 0 < cut <= |Steps(c, op)|
    ensures Unmixed(Next(c, op, cut))
  {
    if cut <= 2 {
      CreatedUnmixed(c, op, cut);
    } else {
      CreatedUnmixed(c, op, 2);
      var d := Next(c, op, 2);
      SecureFrame(d.s, op.j, op.name, op.mode, op.vaultUp, op.m, cut - 3);
      UnmixedShrinks(d, SecureSteps(d.s, op.j, op.name, op.mode, op.vaultUp, op.m)[cut - 3], c.spent);
    }
  }

  lemma StepShrinks(c: Custody, op: Op, i: nat)
    requires Legal(c, op) && !op.Generate? && i < |Steps(c, op)|
    ensures Shrinks(c.s, Steps(c, op)[i])
  {
    if op.Migrate? { SweepFrame(c.s, op.rows, op.moves, i, ""); }
  }

  lemma UnmixedStep(c: Custody, op: Op, cut: nat)
    requires Inv(c) && Unmixed(c) && Legal(c, op) && cut <= |Steps(c, op)|
    ensures Unmixed(Next(c, op, cut))
  {
    if cut > 0 {
      if op.Generate? {
        GenerateUnmixed(c, op, cut);
      } else {
        StepShrinks(c, op, cut - 1);
        UnmixedShrinks(c, Steps(c, op)[cut - 1], Next(c, op, cut).spent);
      }
    }
  }

  /** A fetch hands out the key of the job it was asked for, or nothing. */
  lemma FetchHandsOwn(c: Custody, j: JobId, up: bool, readable: bool, destroyed: bool)
    requires Inv(c) && j in c.s.jobs
    ensures var got := FetchSteps(c.s, j, up, readable, destroyed).0;
            got.Some? ==> j in c.born && got.value == c.born[j]
  {
    if j in c.born { assert Held(c.s, j, c.born[j], j in c.spent); }
  }

  /** And it does hand it out while the row is flagged, leads to the key, and the
      vault and the helper answer. */
  lemma FetchFinds(c: Custody, j: JobId, destroyed: bool)
    requires Inv(c) && FlaggedLead(c) && j in c.born && c.s.jobs[j].hasLocalKey
    requires c.s.jobs[j].localKeyName != Some("")
    ensures FetchSteps(c.s, j, true, true, destroyed).0 == Some(c.born[j])
  {
    assert Held(c.s, j, c.born[j], j in c.spent) && Leads(c.s, j, c.born[j]);
  }

  predicate StoredOnce(s: Store, j: JobId) {
    j in s.jobs && s.jobs[j].storage == ReturnOnce && s.jobs[j].vaultPath == Some(j)
  }

  predicate HandedOver(s: Store, j: JobId) {
    j in s.jobs && s.jobs[j].vaultPath == None && !s.jobs[j].hasLocalKey
  }

  /** Only a fetch of job j itself changes its row. */
  lemma RowPasses(c: Custody, op: Op, i: nat, j: JobId)
    requires Legal(c, op) && j in c.s.jobs && !HostStored(c.s, j) && i < |Steps(c, op)|
    requires op.Fetch? ==> op.j != j
    requires op.FetchNamed? ==> op.pick != Some(j)
    ensures j in Steps(c, op)[i].jobs && Steps(c, op)[i].jobs[j] == c.s.jobs[j]
  {
    match op
    case Generate(k, name, pem, mode, up, m) =>
      if i >= 2 {
        var created := Steps(c, op)[1];
        SecureFrame(created, k, name, mode, up, m, i - 2);
      }
    case Migrate(rows, moves) => SweepFrame(c.s, rows, moves, i, j);
    case _ =>
  }

  /** From a row stored for one fetch, or one handed over, a step leads to one of
      the two again, and hands the key out only from the first to the second. */
  lemma OncePhase(c: Custody, call: Call, j: JobId)
    requires Inv(c) && Unmixed(c) && LegalCall(c, call) && j in c.born
    requires StoredOnce(c.s, j) || HandedOver(c.s, j)
    ensures StoredOnce(Then(c, call).s, j) || HandedOver(Then(c, call).s, j)
    ensures HandedOver(c.s, j) ==> HandedOver(Then(c, call).s, j)
    ensures Completed(c, call) && Handed(c, call.op) == Some(c.born[j])
            ==> StoredOnce(c.s, j) && HandedOver(Then(c, call).s, j)
  {
    assert Held(c.s, j, c.born[j], j in c.spent);
    var own := (call.op.Fetch? && call.op.j == j) || (call.op.FetchNamed? && call.op.pick == Some(j));
    if !own {
      HandsOther(c, call.op, j);
      if call.cut > 0 { RowPasses(c, call.op, call.cut - 1, j); }
    }
  }

  lemma HandsOther(c: Custody, op: Op, j: JobId)
    requires Inv(c) && Unmixed(c) && Legal(c, op) && j in c.born
    requires op.Fetch? ==> op.j != j
    requires op.FetchNamed? ==> op.pick != Some(j)
    ensures Handed(c, op) != Some(c.born[j])
  {
    match op
    case Fetch(k, up, readable, destroyed) => FetchHandsOwn(c, k, up, readable, destroyed);
    case FetchNamed(name, pick, up, readable, destroyed) =>
      if pick.Some? {
        FetchHandsOwn(c, pick.value, up, readable, destroyed);
      } else if name in c.s.host {
        assert c.s.host[name] == c.born[j] ==> NameOf(c.s, j, name);
      }
    case _ =>
  }

  /** How many calls of the run return this key. */
  ghost function TimesHanded(c: Custody, run: seq<Call>, pem: Pem): nat
    requires LegalRun(c, run)
    decreases |run|
  {
    if run == [] then 0
    else (if Completed(c, run[0]) && Handed(c, run[0].op) == Some(pem) then 1 else 0)
         + TimesHanded(Then(c, run[0]), run[1..], pem)
  }

  /** Once a key is stored for one fetch, at most one call of any later run returns
      it, whatever the vault does and wherever calls are cut off. */
  lemma {:induction false} AtMostOnce(c: Custody, run: seq<Call>, j: JobId)
    requires Inv(c) && Unmixed(c) && LegalRun(c, run) && j in c.born
    requires StoredOnce(c.s, j) || HandedOver(c.s, j)
    ensures TimesHanded(c, run, c.born[j]) <= if StoredOnce(c.s, j) then 1 else 0
    decreases |run|
  {
    if run == [] {
    } else {
      var d := Then(c, run[0]);
      NeverLost(c, run[0].op, run[0].cut);
      UnmixedStep(c, run[0].op, run[0].cut);
      OncePhase(c, run[0], j);
      AtMostOnce(d, run[1..], j);
    }
  }

  // ------------------------------------------------------------------ draining the host

  lemma MigrateTakes(s: Store, j: JobId, m: Move)
    requires HostStored(s, j)
    ensures var t := After(s, MigrateSteps(s, j, m));
            |HostStoredJobs(t)| == |HostStoredJobs(s)| - if Outcome(s, j, m).Refused? then 0 else 1
  {
    var steps := MigrateSteps(s, j, m);
    var t := After(s, steps);
    MigrateFrame(s, j, m, |steps| - 1);
    assert forall k :: k != j ==> (HostStored(t, k) <==> HostStored(s, k));
    if Outcome(s, j, m).Refused? {
      assert HostStoredJobs(t) == HostStoredJobs(s);
    } else {
      assert HostStoredJobs(t) == HostStoredJobs(s) - {j};
    }
  }

  /** A sweep takes exactly the selected jobs it did not fail on off the host list. */
  lemma {:induction false} SweepTakes(s: Store, rows: seq<JobId>, moves: seq<Move>)
    requires Selected(s, rows) && |moves| == |rows|
    ensures var r := SweepOver(s, rows, moves);
      && |HostStoredJobs(r.store)| == |HostStoredJobs(s)| - (|rows| - r.failed)
      && r.migrated + r.failed <= |rows|
      && ((forall i :: 0 <= i < |rows| ==> moves[i].put.Stored?) ==> r.failed == 0)
    decreases |rows|
  {
    if rows == [] {
    } else {
      SweepUnfold(s, rows, moves);
      var n := |rows| - 1;
      SweepTakes(s, rows[..n], moves[..n]);
      MigrateTakes(SweepOver(s, rows[..n], moves[..n]).store, rows[n], moves[n]);
    }
  }

  /** One sweep of a plan: the rows a query with this limit selects, and a vault
      that refuses nothing. */
  ghost predicate CleanSweep(s: Store, sweep: (seq<JobId>, seq<Move>), limit: nat) {
    && Selected(s, sweep.0) && |sweep.1| == |sweep.0|
    && |sweep.0| == (if |HostStoredJobs(s)| < limit then |HostStoredJobs(s)| else limit)
    && forall i :: 0 <= i < |sweep.1| ==> sweep.1[i].put.Stored?
  }

  ghost predicate CleanSweeps(s: Store, plan: seq<(seq<JobId>, seq<Move>)>, limit: nat)
    decreases |plan|
  {
    plan == [] || (CleanSweep(s, plan[0], limit)
                   && CleanSweeps(SweepOver(s, plan[0].0, plan[0].1).store, plan[1..], limit))
  }

  ghost function AfterSweeps(s: Store, plan: seq<(seq<JobId>, seq<Move>)>, limit: nat): Store
    requires CleanSweeps(s, plan, limit)
    decreases |plan|
  {
    if plan == [] then s else AfterSweeps(SweepOver(s, plan[0].0, plan[0].1).store, plan[1..], limit)
  }

  /** With no vault failure k sweeps take off min(n, k * limit) of n jobs, so the
      host list is empty exactly after ceil(n / limit) of them. */
  lemma {:induction false} Drains(s: Store, plan: seq<(seq<JobId>, seq<Move>)>, limit: nat)
    requires CleanSweeps(s, plan, limit)
    ensures |plan| * limit >= 0
    ensures |HostStoredJobs(AfterSweeps(s, plan, limit))| == Left(|HostStoredJobs(s)|, |plan| * limit)
    decreases |plan|
  {
    if plan == [] {
    } else {
      var t := FirstSweep(s, plan, limit);
      Drains(t, plan[1..], limit);
      OneMore(|plan|, limit);
      DrainStep(|HostStoredJobs(s)|, |HostStoredJobs(t)|, (|plan| - 1) * limit, limit);
    }
  }

  function Left(n: nat, taken: int): (r: nat)
    requires taken >= 0
    ensures r == 0 <==> n <= taken
  {
    if n <= taken then 0 else n - taken
  }

  lemma FirstSweep(s: Store, plan: seq<(seq<JobId>, seq<Move>)>, limit: nat) returns (t: Store)
    requires CleanSweeps(s, plan, limit) && plan != []
    ensures CleanSweeps(t, plan[1..], limit) && AfterSweeps(s, plan, limit) == AfterSweeps(t, plan[1..], limit)
    ensures |HostStoredJobs(t)| == Left(|HostStoredJobs(s)|, limit)
  {
    t := SweepOver(s, plan[0].0, plan[0].1).store;
    SweepTakes(s, plan[0].0, plan[0].1);
  }

  lemma OneMore(k: nat, limit: nat)
    requires k > 0
    ensures 0 <= (k - 1) * limit && k * limit == (k - 1) * limit + limit
  {
  }

  lemma DrainStep(n: nat, rest: nat, p: nat, limit: nat)
    requires rest == Left(n, limit)
    ensures Left(rest, p) == Left(n, p + limit)
  {
  }
}
