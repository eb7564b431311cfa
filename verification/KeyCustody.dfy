/** Custody of private keys over whole runs: no key is lost at any step, a
    flagged job leads to its key after every completed operation, a one-time key
    is handed out at most once, and sweeps drain the host. */
module KeyCustody {
  import opened Wrappers
  import opened Keystore

  /** The store, the key each job was created with, and the one-time keys whose
      handing out has begun. */
  datatype Custody = Custody(s: Store, born: map<JobId, Pem>, spent: set<JobId>)

  datatype Op =
    | Generate(j: JobId, name: Name, pem: Pem, mode: Storage, vaultUp: bool, m: Move)
    | Fetch(j: JobId, vaultUp: bool, readable: bool, destroyed: bool)
    | FetchNamed(name: Name, pick: Option<JobId>, vaultUp: bool, readable: bool, destroyed: bool)
    | Migrate(rows: seq<JobId>, moves: seq<Move>)
    | DeleteOrphan(name: Name, worked: bool)

  /** What the source assumes of its surroundings: fresh job ids, key names and
      keys, and queries that select what they say. */
  ghost predicate Legal(c: Custody, op: Op) {
    match op
    case Generate(j, name, pem, mode, _, _) =>
      && j !in c.s.jobs && j !in c.s.vault && j !in c.spent
      && name != "" && name !in c.s.host && !Blank(pem)
      && (forall k :: k in c.s.jobs ==> c.s.jobs[k].localKeyName != Some(name))
      && (forall n :: n in c.s.host ==> c.s.host[n] != pem)
      && (forall v :: v in c.s.vault ==> c.s.vault[v] != pem)
      && (forall k :: k in c.born ==> c.born[k] != pem)
      && mode in {OnHost, InVault, ReturnOnce}
    case Fetch(j, _, _, _) => j in c.s.jobs
    case FetchNamed(name, pick, _, _, _) => Resolves(c.s, name, pick)
    case Migrate(rows, moves) => Selected(c.s, rows) && |moves| == |rows|
    case DeleteOrphan(_, _) => true
  }

  ghost function Steps(c: Custody, op: Op): seq<Store>
    requires Legal(c, op)
  {
    match op
    case Generate(j, name, pem, mode, up, m) => GenerateSteps(c.s, j, name, pem, mode, up, m)
    case Fetch(j, up, readable, destroyed) => FetchSteps(c.s, j, up, readable, destroyed).1
    case FetchNamed(name, pick, up, readable, destroyed) =>
      if pick.Some? then FetchSteps(c.s, pick.value, up, readable, destroyed).1 else []
    case Migrate(rows, moves) => SweepOver(c.s, rows, moves).steps
    case DeleteOrphan(name, worked) => OrphanSteps(c.s, name, worked)
  }

  /** The key a completed call returns. */
  ghost function Handed(c: Custody, op: Op): Option<Pem>
    requires Legal(c, op)
  {
    match op
    case Fetch(j, up, readable, destroyed) => FetchSteps(c.s, j, up, readable, destroyed).0
    case FetchNamed(name, pick, up, readable, destroyed) =>
      if pick.Some? then FetchSteps(c.s, pick.value, up, readable, destroyed).0
      else if readable && name in c.s.host then Some(c.s.host[name]) else None
    case _ => None
  }

  /** The job whose one-time key this call hands out. */
  ghost function Spends(c: Custody, op: Op): set<JobId>
    requires Legal(c, op)
  {
    match op
    case Fetch(j, _, _, _) => if Steps(c, op) != [] then {j} else {}
    case FetchNamed(_, pick, _, _, _) => if Steps(c, op) != [] then {pick.value} else {}
    case _ => {}
  }

  /** The call is carried out up to its `cut`-th step; the process stops there
      when that is not the last. */
  ghost function Next(c: Custody, op: Op, cut: nat): Custody
    requires Legal(c, op) && cut <= |Steps(c, op)|
  {
    Custody(if cut == 0 then c.s else Steps(c, op)[cut - 1],
            if op.Generate? && cut >= 2 then c.born[op.j := op.pem] else c.born,
            if cut == 0 then c.spent else c.spent + Spends(c, op))
  }

  // ------------------------------------------------------------ never lost, at any step

  predicate NameOf(s: Store, j: JobId, name: Name) {
    j in s.jobs && s.jobs[j].localKeyName == Some(name)
  }

  /** Where the key of job j may be, and that it is somewhere. */
  ghost predicate Held(s: Store, j: JobId, pem: Pem, spent: bool) {
    && j in s.jobs && s.jobs[j].localKeyName.Some?
    && (s.jobs[j].vaultPath == None || s.jobs[j].vaultPath == Some(j))
    && (s.jobs[j].localKeyName.value in s.host ==> s.host[s.jobs[j].localKeyName.value] == pem)
    && (j in s.vault ==> s.vault[j] == pem)
    && (spent || s.jobs[j].localKeyName.value in s.host || j in s.vault)
  }

  ghost predicate Inv(c: Custody) {
    && (forall j :: j in c.born ==> !Blank(c.born[j]) && Held(c.s, j, c.born[j], j in c.spent))
    && (forall j :: j in c.s.jobs && j !in c.born ==> c.s.jobs[j] == Row(false, None, None, c.s.jobs[j].storage))
    && (forall j, k :: j in c.born && k in c.born && j != k
          ==> c.s.jobs[j].localKeyName != c.s.jobs[k].localKeyName)
  }

  /** The same jobs under the same names, with row j, vault entry j and host file
      `name` the only things that may differ. */
  ghost predicate Touches(s: Store, t: Store, j: JobId, name: Name) {
    && t.jobs.Keys == s.jobs.Keys
    && (forall k :: k in s.jobs && k != j ==> t.jobs[k] == s.jobs[k])
    && (j in s.jobs ==> t.jobs[j].localKeyName == s.jobs[j].localKeyName)
    && (forall n :: n != name ==> (n in t.host <==> n in s.host) && (n in s.host ==> t.host[n] == s.host[n]))
    && (forall v :: v != j ==> (v in t.vault <==> v in s.vault) && (v in s.vault ==> t.vault[v] == s.vault[v]))
  }

  lemma InvTouch(c: Custody, t: Store, j: JobId, name: Name, spent: set<JobId>)
    requires Inv(c) && j in c.born && NameOf(c.s, j, name)
    requires Touches(c.s, t, j, name) && c.spent <= spent
    requires Held(t, j, c.born[j], j in spent)
    ensures Inv(Custody(t, c.born, spent))
  {
    forall k | k in c.born && k != j ensures Held(t, k, c.born[k], k in spent) {
      assert c.s.jobs[k].localKeyName != Some(name);
    }
  }

  lemma PutKeeps(c: Custody, j: JobId, name: Name, put: Put)
    requires Inv(c) && j in c.born && NameOf(c.s, j, name) && name in c.s.host
    ensures Inv(c.(s := PutKey(c.s, j, c.s.host[name], put)))
  {
    InvTouch(c, PutKey(c.s, j, c.s.host[name], put), j, name, c.spent);
  }

  lemma ShredKeeps(c: Custody, j: JobId, name: Name, worked: bool)
    requires Inv(c) && j in c.born && NameOf(c.s, j, name) && j in c.s.vault
    ensures Inv(c.(s := Shred(c.s, name, worked)))
  {
    InvTouch(c, Shred(c.s, name, worked), j, name, c.spent);
  }

  lemma RowKeeps(c: Custody, j: JobId, row: Row)
    requires Inv(c) && j in c.born && row.localKeyName == c.s.jobs[j].localKeyName
    requires row.vaultPath == None || row.vaultPath == Some(j)
    ensures Inv(c.(s := SetRow(c.s, j, row)))
  {
    InvTouch(c, SetRow(c.s, j, row), j, row.localKeyName.value, c.spent);
  }

  /** The three steps of a successful move to the vault. */
  lemma MoveKeeps(c: Custody, j: JobId, name: Name, shredded: bool, put: Put, row: Row)
    requires Inv(c) && j in c.born && NameOf(c.s, j, name) && name in c.s.host
    requires row.localKeyName == Some(name) && row.vaultPath == Some(j) && put.Stored?
    ensures Inv(c.(s := PutKey(c.s, j, c.s.host[name], put)))
    ensures Inv(c.(s := Shred(PutKey(c.s, j, c.s.host[name], put), name, shredded)))
    ensures Inv(c.(s := SetRow(Shred(PutKey(c.s, j, c.s.host[name], put), name, shredded), j, row)))
  {
    var c1 := c.(s := PutKey(c.s, j, c.s.host[name], put));
    PutKeeps(c, j, name, put);
    ShredKeeps(c1, j, name, shredded);
    RowKeeps(c1.(s := Shred(c1.s, name, shredded)), j, row);
  }

  lemma SecureKeeps(c: Custody, j: JobId, name: Name, mode: Storage, up: bool, m: Move, i: nat)
    requires Inv(c) && j in c.born && NameOf(c.s, j, name) && c.s.jobs[j].vaultPath == None
    requires i < |SecureSteps(c.s, j, name, mode, up, m)|
    ensures Inv(c.(s := SecureSteps(c.s, j, name, mode, up, m)[i]))
  {
    var kept := c.s.jobs[j].(storage := OnHost);
    if mode == OnHost || name == "" || !up || !CanRead(c.s, name, m.readable) {
      RowKeeps(c, j, kept);
    } else if m.put.Failed? {
      PutKeeps(c, j, name, m.put);
      RowKeeps(c.(s := PutKey(c.s, j, c.s.host[name], m.put)), j, kept);
    } else {
      MoveKeeps(c, j, name, m.shredded, m.put, c.s.jobs[j].(storage := mode, vaultPath := Some(j)));
    }
  }

  lemma MigrateKeeps(c: Custody, j: JobId, m: Move, i: nat)
    requires Inv(c) && HostStored(c.s, j) && i < |MigrateSteps(c.s, j, m)|
    ensures Inv(c.(s := MigrateSteps(c.s, j, m)[i]))
  {
    var row := c.s.jobs[j];
    var name := row.localKeyName.value;
    assert j in c.born && NameOf(c.s, j, name);
    match Outcome(c.s, j, m)
    case Gone => RowKeeps(c, j, row.(hasLocalKey := false));
    case Refused => PutKeeps(c, j, name, m.put);
    case Moved => MoveKeeps(c, j, name, m.shredded, m.put, row.(vaultPath := Some(j), storage := InVault));
  }

  lemma FetchKeeps(c: Custody, j: JobId, up: bool, readable: bool, destroyed: bool, i: nat)
    requires Inv(c) && j in c.s.jobs && i < |FetchSteps(c.s, j, up, readable, destroyed).1|
    ensures Inv(Custody(FetchSteps(c.s, j, up, readable, destroyed).1[i], c.born, c.spent + {j}))
  {
    InvTouch(c, FetchSteps(c.s, j, up, readable, destroyed).1[i], j, c.s.jobs[j].localKeyName.value, c.spent + {j});
  }

  lemma {:induction false} SweepKeeps(c: Custody, rows: seq<JobId>, moves: seq<Move>, i: nat)
    requires Inv(c) && Selected(c.s, rows) && |moves| == |rows|
    requires i < |SweepOver(c.s, rows, moves).steps|
    ensures Inv(c.(s := SweepOver(c.s, rows, moves).steps[i]))
    decreases |rows|
  {
    SweepStepAt(c.s, rows, moves, i);
    var n := |rows| - 1;
    var before := SweepOver(c.s, rows[..n], moves[..n]);
    if i < |before.steps| {
      SweepKeeps(c, rows[..n], moves[..n], i);
    } else {
      if before.steps != [] { SweepKeeps(c, rows[..n], moves[..n], |before.steps| - 1); }
      AfterKeeps(c, before.steps);
      StoreKeeps(c, before.store, rows[n], moves[n], i - |before.steps|);
    }
  }

  lemma AfterKeeps(c: Custody, steps: seq<Store>)
    requires Inv(c) && (steps != [] ==> Inv(c.(s := steps[|steps| - 1])))
    ensures Inv(c.(s := After(c.s, steps)))
  {
  }

  lemma StoreKeeps(c: Custody, s: Store, j: JobId, m: Move, i: nat)
    requires Inv(c.(s := s)) && HostStored(s, j) && i < |MigrateSteps(s, j, m)|
    ensures Inv(c.(s := MigrateSteps(s, j, m)[i]))
  {
    MigrateKeeps(c.(s := s), j, m, i);
    assert c.(s := s).(s := MigrateSteps(s, j, m)[i]) == c.(s := MigrateSteps(s, j, m)[i]);
  }

  lemma FiledKeeps(c: Custody, name: Name, pem: Pem)
    requires Inv(c) && forall k :: k in c.s.jobs ==> c.s.jobs[k].localKeyName != Some(name)
    ensures Inv(Filed(c, name, pem))
  {
    var filed := Filed(c, name, pem).s;
    forall j | j in c.born ensures Held(filed, j, c.born[j], j in c.spent) {
      assert c.s.jobs[j].localKeyName != Some(name);
    }
  }

  lemma CreatedKeeps(c: Custody, j: JobId, name: Name, pem: Pem)
    requires Inv(c) && j !in c.s.jobs && j !in c.s.vault && name in c.s.host && c.s.host[name] == pem && !Blank(pem)
    requires forall k :: k in c.s.jobs ==> c.s.jobs[k].localKeyName != Some(name)
    ensures Inv(Custody(c.s.(jobs := c.s.jobs[j := Row(true, Some(name), None, Unset)]), c.born[j := pem], c.spent))
  {
    var s := c.s.(jobs := c.s.jobs[j := Row(true, Some(name), None, Unset)]);
    forall k | k in c.born[j := pem] ensures Held(s, k, c.born[j := pem][k], k in c.spent) {
      if k != j { assert Held(c.s, k, c.born[k], k in c.spent); }
    }
  }

  function Filed(c: Custody, name: Name, pem: Pem): Custody {
    c.(s := c.s.(host := c.s.host[name := pem]))
  }

  function Created(c: Custody, j: JobId, name: Name, pem: Pem): Custody {
    var s := Filed(c, name, pem).s;
    Custody(s.(jobs := s.jobs[j := Row(true, Some(name), None, Unset)]), c.born[j := pem], c.spent)
  }

  /** The stores a generation passes through. */
  lemma GenerateNext(c: Custody, op: Op, cut: nat)
    requires Legal(c, op) && op.Generate? && 0 < cut <= |Steps(c, op)|
    ensures cut == 1 ==> Next(c, op, cut) == Filed(c, op.name, op.pem)
    ensures cut == 2 ==> Next(c, op, cut) == Created(c, op.j, op.name, op.pem)
    ensures cut > 2 ==>
      var d := Created(c, op.j, op.name, op.pem);
      var steps := SecureSteps(d.s, op.j, op.name, op.mode, op.vaultUp, op.m);
      cut - 3 < |steps| && Next(c, op, cut) == d.(s := steps[cut - 3])
  {
  }

  lemma GenerateKeeps(c: Custody, op: Op, cut: nat)
    requires Inv(c) && Legal(c, op) && op.Generate? && 0 < cut <= |Steps(c, op)|
    ensures Inv(Next(c, op, cut))
  {
    GenerateNext(c, op, cut);
    FiledKeeps(c, op.name, op.pem);
    if cut > 1 {
      CreatedKeeps(Filed(c, op.name, op.pem), op.j, op.name, op.pem);
      if cut > 2 {
        SecureKeeps(Created(c, op.j, op.name, op.pem), op.j, op.name, op.mode, op.vaultUp, op.m, cut - 3);
      }
    }
  }

  lemma OrphanKeeps(c: Custody, name: Name, worked: bool)
    requires Inv(c) && OrphanSteps(c.s, name, worked) != []
    ensures Inv(c.(s := OrphanSteps(c.s, name, worked)[0]))
  {
    forall j | j in c.born ensures Held(OrphanSteps(c.s, name, worked)[0], j, c.born[j], j in c.spent) {
      assert Held(c.s, j, c.born[j], j in c.spent);
    }
  }

  lemma NextOf(c: Custody, op: Op, cut: nat)
    requires Legal(c, op) && 0 < cut <= |Steps(c, op)| && !op.Generate?
    ensures Next(c, op, cut) == Custody(Steps(c, op)[cut - 1], c.born, c.spent + Spends(c, op))
  {
  }

  lemma FetchCallKeeps(c: Custody, op: Op, cut: nat)
    requires Inv(c) && Legal(c, op) && (op.Fetch? || op.FetchNamed?) && 0 < cut <= |Steps(c, op)|
    ensures Inv(Next(c, op, cut))
  {
    var j := if op.Fetch? then op.j else op.pick.value;
    NextOf(c, op, cut);
    FetchKeeps(c, j, op.vaultUp, op.readable, op.destroyed, cut - 1);
  }

  lemma SweepCallKeeps(c: Custody, op: Op, cut: nat)
    requires Inv(c) && Legal(c, op) && op.Migrate? && 0 < cut <= |Steps(c, op)|
    ensures Inv(Next(c, op, cut))
  {
    NextOf(c, op, cut);
    SweepKeeps(c, op.rows, op.moves, cut - 1);
  }

  lemma OrphanCallKeeps(c: Custody, op: Op, cut: nat)
    requires Inv(c) && Legal(c, op) && op.DeleteOrphan? && 0 < cut <= |Steps(c, op)|
    ensures Inv(Next(c, op, cut))
  {
    NextOf(c, op, cut);
    OrphanKeeps(c, op.name, op.worked);
  }

  /** Whatever the operation, wherever it stops, and however the vault answers,
      every key not handed out for its one time is still on the host or in the
      vault, and nothing else is under its name or id. */
  lemma NeverLost(c: Custody, op: Op, cut: nat)
    requires Inv(c) && Legal(c, op) && cut <= |Steps(c, op)|
    ensures Inv(Next(c, op, cut))
  {
    if cut > 0 {
      match op
      case Generate(_, _, _, _, _, _) => GenerateKeeps(c, op, cut);
      case Fetch(_, _, _, _) => FetchCallKeeps(c, op, cut);
      case FetchNamed(_, _, _, _, _) => FetchCallKeeps(c, op, cut);
      case Migrate(_, _) => SweepCallKeeps(c, op, cut);
      case DeleteOrphan(_, _) => OrphanCallKeeps(c, op, cut);
    }
  }
}
