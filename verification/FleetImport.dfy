/** The fleet importer (main in backend/import_certs.py) and the whole warning
    pass (run_expiry_warnings in backend/routes_admin.py), as they update the
    tables. */
module FleetImport {
  import opened Wrappers
  import opened ExpiryWarnings
  import opened FleetWarnings
  import Text

  /** What parse_cert makes of the first certificate of a file; the names are its
      common name and its alternative ones, in lower case. */
  datatype CertInfo = CertInfo(fp: Fingerprint, isCa: bool, names: set<string>)

  /** One scanned file: stripped host and path, whether the text holds a
      certificate block, and the parsed certificate if it parses. */
  datatype Record = Record(host: string, path: string, hasPem: bool, info: Option<CertInfo>)

  predicate Bad(r: Record) {
    r.host == "" || r.path == "" || !r.hasPem || r.info.None? || r.info.value.fp == ""
  }

  predicate SkippedCa(r: Record, includeCa: bool) {
    !Bad(r) && r.info.value.isCa && !includeCa
  }

  predicate Accepted(r: Record, includeCa: bool) {
    !Bad(r) && !SkippedCa(r, includeCa)
  }

  /** What follows the last slash. */
  function Basename(path: string): string {
    if path == "" || path[|path| - 1] == '/' then "" else Basename(path[..|path| - 1]) + [path[|path| - 1]]
  }

  function WithoutExtension(name: string): string {
    if |name| >= 4 && Text.Lower(name[|name| - 4..]) in {".crt", ".cer", ".pem"} then name[..|name| - 4] else name
  }

  /** In a path with a directory, or none, the file's name is what follows it, and loses a
      certificate's extension in any case of letters, and no other. */
  lemma FileNameRead(dir: string, name: string, ext: string)
    requires '/' !in name + ext && (dir == "" || dir[|dir| - 1] == '/')
    ensures Basename(dir + (name + ext)) == name + ext
    ensures Text.Lower(ext) in {".crt", ".cer", ".pem"} ==> WithoutExtension(name + ext) == name
    ensures |ext| == 4 && Text.Lower(ext) !in {".crt", ".cer", ".pem"} ==> WithoutExtension(name + ext) == name + ext
  {
    BasenameAfter(dir, name + ext);
    if |ext| == 4 { assert (name + ext)[|name|..] == ext; }
  }

  lemma {:induction false} BasenameAfter(dir: string, file: string)
    requires '/' !in file && (dir == "" || dir[|dir| - 1] == '/')
    ensures Basename(dir + file) == file
  {
    if file == "" {
      assert dir + file == dir;
    } else {
      var n := |file| - 1;
      assert (dir + file)[..|dir + file| - 1] == dir + file[..n] && (dir + file)[|dir + file| - 1] == file[n];
      BasenameAfter(dir, file[..n]);
      assert file == file[..n] + [file[n]];
    }
  }

  /** The file is named after a host its certificate does not name. */
  predicate Misnamed(r: Record, includeCa: bool) {
    Accepted(r, includeCa)
    && var name := WithoutExtension(Basename(r.path));
       '.' in name && Text.Lower(name) !in r.info.value.names
  }

  function CountMisnamed(records: seq<Record>, includeCa: bool): nat {
    if records == [] then 0
    else
      CountMisnamed(records[..|records| - 1], includeCa)
      + if Misnamed(records[|records| - 1], includeCa) then 1 else 0
  }

  function UpsertOf(r: Record, notify: string): Change
    requires !Bad(r)
  {
    Upsert((r.host, r.path), r.info.value.fp, notify)
  }

  datatype Options = Options(includeCa: bool, notify: string, expiry: Fingerprint -> Option<real>)

  /** The table after the records, in order. */
  function AfterRecords(table: Table, records: seq<Record>, o: Options): Table {
    if records == [] then table
    else
      var before := AfterRecords(table, records[..|records| - 1], o);
      var r := records[|records| - 1];
      if Accepted(r, o.includeCa) then Apply(before, UpsertOf(r, o.notify), o.expiry) else before
  }

  /** The rows the accepted records name. */
  function SeenKeys(records: seq<Record>, o: Options): set<Key> {
    if records == [] then {}
    else
      var r := records[|records| - 1];
      SeenKeys(records[..|records| - 1], o) + if Accepted(r, o.includeCa) then {(r.host, r.path)} else {}
  }

  /** Some record for the row is neither bad nor left out as a CA's. */
  predicate Seen(records: seq<Record>, includeCa: bool, k: Key) {
    exists i :: 0 <= i < |records| && k == (records[i].host, records[i].path) && k.0 != "" && k.1 != ""
                && records[i].hasPem && records[i].info.Some? && records[i].info.value.fp != ""
                && (records[i].info.value.isCa ==> includeCa)
  }

  lemma {:induction false} SeenExactly(records: seq<Record>, o: Options, k: Key)
    ensures k in SeenKeys(records, o) <==> Seen(records, o.includeCa, k)
  {
    if records == [] {
    } else {
      var init, r := records[..|records| - 1], records[|records| - 1];
      SeenExactly(init, o, k);
      assert records == init + [r];
    }
  }

  /** An accepted record for the row carries another fingerprint. */
  predicate SeenOther(records: seq<Record>, o: Options, k: Key, fp: Fingerprint) {
    exists i :: 0 <= i < |records| && Accepted(records[i], o.includeCa) && (records[i].host, records[i].path) == k
                && records[i].info.value.fp != fp
  }

  /** An import adds and keeps rows only; it resets the tier of an existing row
      exactly when some record finds another certificate there, and leaves rows no
      record names as they were. */
  lemma {:induction false} ImportResets(table: Table, records: seq<Record>, o: Options, k: Key)
    ensures k in AfterRecords(table, records, o) <==> k in table || k in SeenKeys(records, o)
    ensures k in table && k !in SeenKeys(records, o) ==> AfterRecords(table, records, o)[k] == table[k]
    ensures k in table && !SeenOther(records, o, k, table[k].fp)
            ==> AfterRecords(table, records, o)[k].warned == table[k].warned
                && AfterRecords(table, records, o)[k].fp == table[k].fp
    ensures k in AfterRecords(table, records, o) && (k !in table || SeenOther(records, o, k, table[k].fp))
            ==> AfterRecords(table, records, o)[k].warned == 0
  {
    if records == [] {
    } else {
      var n := |records| - 1;
      var init := records[..n];
      ImportResets(table, init, o, k);
      if k in table { SeenOtherMore(init, records[n], o, k, table[k].fp); }
      assert records == init + [records[n]];
    }
  }

  lemma SeenOtherMore(records: seq<Record>, r: Record, o: Options, k: Key, fp: Fingerprint)
    ensures SeenOther(records + [r], o, k, fp) <==>
            SeenOther(records, o, k, fp) || (Accepted(r, o.includeCa) && (r.host, r.path) == k && r.info.value.fp != fp)
  {
    var all := records + [r];
    assert all[|records|] == r;
    assert forall i :: 0 <= i < |records| ==> all[i] == records[i];
  }

  /** Pruning a host drops its rows the import did not see. */
  function Pruned(table: Table, records: seq<Record>, o: Options, hosts: seq<string>): Table {
    map k | k in table && !(k.0 in hosts && k !in SeenKeys(records, o)) :: table[k]
  }

  datatype Counts = Counts(added: nat, updated: nat, renewed: nat, skippedCa: nat, skippedBad: nat,
                           pruned: nat, mismatches: nat)

  class Monitor {
    var fleet: Table
    var jobs: map<string, JobRow>

    constructor ()
      ensures fleet == map[] && jobs == map[]
    {
      fleet, jobs := map[], map[];
    }

    /** Upserts one record, and notes where it was seen. */
    method ImportRecord(r: Record, o: Options, c0: Counts, seen: map<string, set<string>>)
      returns (c: Counts, seenPaths: map<string, set<string>>)
      modifies this`fleet
      ensures fleet == if Accepted(r, o.includeCa)
        then Apply(old(fleet), UpsertOf(r, o.notify), o.expiry) else old(fleet)
      ensures c.added + c.updated + c.renewed + c.skippedCa + c.skippedBad
           == c0.added + c0.updated + c0.renewed + c0.skippedCa + c0.skippedBad + 1
      ensures c.pruned == c0.pruned
      ensures c.skippedBad == c0.skippedBad + 1 <==>
        r.host == "" || r.path == "" || !r.hasPem || r.info.None? || r.info.value.fp == ""
      ensures c.skippedCa == c0.skippedCa + 1 <==>
        c.skippedBad == c0.skippedBad && r.info.Some? && r.info.value.isCa && !o.includeCa
      ensures c.added == c0.added + 1 <==>
        c.skippedBad == c0.skippedBad && c.skippedCa == c0.skippedCa && (r.host, r.path) !in old(fleet)
      ensures c.skippedBad == c0.skippedBad && c.skippedCa == c0.skippedCa ==>
        var k, fp := (r.host, r.path), r.info.value.fp;
        var was := if k in old(fleet) then old(fleet)[k] else FleetRow("", None, 0, o.notify);
        fleet == old(fleet)[k := FleetRow(fp, o.expiry(fp), if was.fp == fp then was.warned else 0, was.notify)]
      ensures c.skippedBad != c0.skippedBad || c.skippedCa != c0.skippedCa ==> fleet == old(fleet)
      ensures c.mismatches == c0.mismatches + if Misnamed(r, o.includeCa) then 1 else 0
      ensures |fleet.Keys| == |old(fleet).Keys| + c.added - c0.added
      ensures c.renewed == c0.renewed + 1 <==>
        Accepted(r, o.includeCa) && (r.host, r.path) in old(fleet) && old(fleet)[(r.host, r.path)].fp != r.info.value.fp
      ensures forall k: Key :: Noted(seenPaths, k) <==>
                Noted(seen, k) || (Accepted(r, o.includeCa) && (r.host, r.path) == k)
    {
      c, seenPaths := c0, seen;
      if Bad(r) {
        c := c.(skippedBad := c.skippedBad + 1);
      } else if r.info.value.isCa && !o.includeCa {
        c := c.(skippedCa := c.skippedCa + 1);
      } else {
        var k, fp := (r.host, r.path), r.info.value.fp;
        var name := WithoutExtension(Basename(r.path));
        if '.' in name && Text.Lower(name) !in r.info.value.names { c := c.(mismatches := c.mismatches + 1); }
        seenPaths := seen[r.host := (if r.host in seen then seen[r.host] else {}) + {r.path}];
        if k !in fleet {
          fleet := fleet[k := FleetRow(fp, o.expiry(fp), 0, o.notify)];
          c := c.(added := c.added + 1);
        } else if fleet[k].fp != fp {
          fleet := fleet[k := FleetRow(fp, o.expiry(fp), 0, fleet[k].notify)];
          c := c.(renewed := c.renewed + 1);
        } else {
          fleet := fleet[k := fleet[k].(expiresAt := o.expiry(fp))];
          c := c.(updated := c.updated + 1);
        }
      }
    }

    /** Imports the records, in order. */
    method ImportRecords(records: seq<Record>, o: Options) returns (c: Counts, seenPaths: map<string, set<string>>)
      modifies this`fleet
      ensures fleet == AfterRecords(old(fleet), records, o)
      ensures c.added + c.updated + c.renewed + c.skippedCa + c.skippedBad == |records| && c.pruned == 0
      ensures |fleet.Keys| == |old(fleet).Keys| + c.added
      ensures c.mismatches == CountMisnamed(records, o.includeCa)
      ensures forall k: Key :: Noted(seenPaths, k) <==> k in SeenKeys(records, o)
    {
      c, seenPaths := Counts(0, 0, 0, 0, 0, 0, 0), map[];
      for i := 0 to |records|
        invariant fleet == AfterRecords(old(fleet), records[..i], o)
        invariant c.added + c.updated + c.renewed + c.skippedCa + c.skippedBad == i && c.pruned == 0
        invariant |fleet.Keys| == |old(fleet).Keys| + c.added
        invariant c.mismatches == CountMisnamed(records[..i], o.includeCa)
        invariant forall k: Key :: Noted(seenPaths, k) <==> k in SeenKeys(records[..i], o)
      {
        OneMore(old(fleet), records, i, o);
        c, seenPaths := ImportRecord(records[i], o, c, seenPaths);
      }
      assert records[..|records|] == records;
    }

    /** Deletes the rows of one host whose path was not seen. */
    method PruneHost(host: string, paths: set<string>) returns (pruned: nat)
      modifies this`fleet
      ensures fleet == map k | k in old(fleet) && !(k.0 == host && k.1 !in paths) :: old(fleet)[k]
      ensures |fleet.Keys| == |old(fleet).Keys| - pruned
    {
      pruned := 0;
      ghost var start := fleet;
      var rows := set k | k in fleet && k.0 == host;
      assert PrunedPartly(start, fleet, rows, host, paths, 0);
      while rows != {}
        invariant PrunedPartly(start, fleet, rows, host, paths, pruned)
        decreases rows
      {
        var k :| k in rows;
        PrunedOne(start, fleet, rows, k, host, paths, pruned);
        rows := rows - {k};
        if k.1 !in paths {
          fleet := fleet - {k};
          pruned := pruned + 1;
        }
      }
    }

    /** Imports the records and prunes the given hosts. */
    method ImportCerts(records: seq<Record>, o: Options, pruneHosts: seq<string>) returns (c: Counts)
      modifies this`fleet
      ensures fleet == Pruned(AfterRecords(old(fleet), records, o), records, o, pruneHosts)
      ensures forall k :: k in fleet <==> Seen(records, o.includeCa, k) || (k in old(fleet) && k.0 !in pruneHosts)
      ensures c.added + c.updated + c.renewed + c.skippedCa + c.skippedBad == |records|
      ensures |fleet.Keys| == |old(fleet).Keys| + c.added - c.pruned
      ensures c.mismatches == CountMisnamed(records, o.includeCa)
    {
      var seenPaths;
      c, seenPaths := ImportRecords(records, o);
      ghost var imported := fleet;
      for i := 0 to |pruneHosts|
        invariant fleet == Pruned(imported, records, o, pruneHosts[..i])
        invariant |fleet.Keys| == |imported.Keys| - c.pruned
        invariant c.added + c.updated + c.renewed + c.skippedCa + c.skippedBad == |records|
        invariant |imported.Keys| == |old(fleet).Keys| + c.added && c.mismatches == CountMisnamed(records, o.includeCa)
      {
        var host := pruneHosts[i];
        var paths := if host in seenPaths then seenPaths[host] else {};
        PrunedMore(imported, records, o, pruneHosts, i, paths, seenPaths);
        var pruned := PruneHost(host, paths);
        c := c.(pruned := c.pruned + pruned);
      }
      assert pruneHosts[..|pruneHosts|] == pruneHosts;
      forall k ensures k in fleet <==> Seen(records, o.includeCa, k) || (k in old(fleet) && k.0 !in pruneHosts) {
        ImportResets(old(fleet), records, o, k);
        SeenExactly(records, o, k);
      }
    }

    /** Tracks a certificate issued here, under a path of its job; best effort. */
    method TrackIssued(host: string, jobId: string, info: Option<CertInfo>, notify: string,
                       expiry: Fingerprint -> Option<real>)
      modifies this`fleet
      ensures info.None? ==> fleet == old(fleet)
      ensures info.Some? ==>
        fleet == Apply(old(fleet), Track((host, "dashboard:" + jobId), info.value.fp, notify), expiry)
      ensures info.Some? ==>
        fleet == old(fleet)[(host, "dashboard:" + jobId) := FleetRow(info.value.fp, expiry(info.value.fp), 0, notify)]
    {
      if info.Some? {
        var fp := info.value.fp;
        fleet := fleet[(host, "dashboard:" + jobId) := FleetRow(fp, expiry(fp), 0, notify)];
      }
    }

    /** One row of the pass: the mail, the tier it records, and the webhook after it. */
    method WarnJob(id: string, now: real, mail: Mail) returns (sent: bool, error: bool)
      requires id in jobs
      modifies this`jobs
      ensures jobs == old(jobs)[id := Warn(old(jobs)[id], now, mail)]
      ensures sent <==> SentTier(old(jobs)[id], now, mail).Some?
      ensures error <==> CountsError(old(jobs)[id], now, mail)
      ensures var row := old(jobs)[id];
        var due := if row.issued && row.expiresAt.Some?
                   then TierBySeconds(row.expiresAt.value - now, row.warned) else None;
        && (sent <==> due.Some? && mail.Delivered?)
        && (error <==> due.Some? && (mail.Raised? || mail.webhookRaises))
        && jobs == old(jobs)[id := if sent then row.(warned := due.value) else row]
    {
      sent, error := false, false;
      WarnExactly(jobs[id], now, mail);
      var due := Due(jobs[id], now);
      if due.None? { return; }
      if mail.Delivered? {
        sent := true;
        jobs := jobs[id := jobs[id].(warned := due.value)];
      }
      error := mail.Raised? || mail.webhookRaises;
    }

    /** The pass over the dashboard's own jobs: how many mails went out, how many
        attempts raised. The order of the rows does not matter. */
    method WarnJobs(now: real, mail: string -> Mail) returns (sent: nat, errors: nat)
      modifies this`jobs
      ensures jobs.Keys == old(jobs).Keys
      ensures forall id :: id in jobs ==> jobs[id] == Warn(old(jobs)[id], now, mail(id))
      ensures sent == |MailedJobs(old(jobs), now, mail)| && errors == |RaisingJobs(old(jobs), now, mail)|
    {
      sent, errors := 0, 0;
      ghost var start := jobs;
      ghost var mailed, raised := MailedJobs(jobs, now, mail), RaisingJobs(jobs, now, mail);
      var rows := set id | id in jobs && jobs[id].issued && InWindow(jobs[id].expiresAt, now);
      TallyNone(mailed, rows);
      TallyNone(raised, rows);
      while rows != {}
        invariant JobsPartly(start, jobs, rows, now, mail)
        invariant Tallied(mailed, rows, sent) && Tallied(raised, rows, errors)
        decreases rows
      {
        var id :| id in rows;
        OneJobDone(start, jobs, rows, id, now, mail);
        TallyOne(mailed, rows, id, sent);
        TallyOne(raised, rows, id, errors);
        var s, e := WarnJob(id, now, mail(id));
        rows := rows - {id};
        if s { sent := sent + 1; }
        if e { errors := errors + 1; }
      }
      TallyAll(mailed, sent);
      TallyAll(raised, errors);
    }

    /** One group of the pass: a mail to the first recipient, and the tier recorded
        on every row of the group. */
    method WarnGroup(start: Table, fp: Fingerprint, p: FleetPass, ghost expiry: Fingerprint -> Option<real>)
      returns (sent: bool, error: bool)
      requires SameExpiry(start, expiry) && Group(start, fp, p.now) != {}
      requires fleet.Keys == start.Keys
      modifies this`fleet
      ensures error <==> GroupRaises(start, fp, p, expiry)
      ensures sent <==> MailSent(start, fp, p, expiry).Some?
      ensures fleet == if sent
        then MarkGroup(old(fleet), Group(start, fp, p.now), MailSent(start, fp, p, expiry).value) else old(fleet)
    {
      var group := Group(start, fp, p.now);
      var first :| first in group;
      var level := Level(DaysLeft(start[first].expiresAt.value, p.now));
      if level.None? || !SomeDue(start, group, level.value) || !HasRecipient(start, group, p.signers) {
        return false, false;
      }
      sent := p.mail(fp).Delivered?;
      if sent { fleet := MarkGroup(fleet, group, level.value); }
      error := p.mail(fp).Raised? || p.mail(fp).webhookRaises;
    }

    /** The pass over the fleet: the rows in the window are grouped by fingerprint,
        and each group due a mail gets one. */
    method WarnFleet(p: FleetPass, ghost expiry: Fingerprint -> Option<real>) returns (sent: nat, errors: nat)
      requires SameExpiry(fleet, expiry)
      modifies this`fleet
      ensures fleet == AfterPass(old(fleet), p, expiry)
      ensures sent == |MailedGroups(old(fleet), p, expiry)|
      ensures errors == |RaisingGroups(old(fleet), p, expiry)|
    {
      sent, errors := 0, 0;
      var start := fleet;
      ghost var mailed, raised := MailedGroups(start, p, expiry), RaisingGroups(start, p, expiry);
      var fps := Fingerprints(start, p.now);
      NoneDone(start, p, expiry);
      TallyNone(mailed, fps);
      TallyNone(raised, fps);
      while fps != {}
        invariant Partly(start, fleet, fps, p, expiry)
        invariant Tallied(mailed, fps, sent) && Tallied(raised, fps, errors)
        decreases fps
      {
        var fp :| fp in fps;
        OneDone(start, fleet, fps, fp, p, expiry);
        TallyOne(mailed, fps, fp, sent);
        TallyOne(raised, fps, fp, errors);
        var one, bad := WarnGroup(start, fp, p, expiry);
        fps := fps - {fp};
        if one { sent := sent + 1; }
        if bad { errors := errors + 1; }
      }
      AllDone(start, fleet, p, expiry);
      TallyAll(mailed, sent);
      TallyAll(raised, errors);
    }
  }

  /** n of the elements counted are no longer among those left. */
  ghost predicate Tallied<T(!new)>(all: set<T>, left: set<T>, n: nat) {
    n == |all - left|
  }

  lemma TallyNone<T(!new)>(all: set<T>, left: set<T>)
    requires all <= left
    ensures Tallied(all, left, 0)
  {
    assert all - left == {};
  }

  lemma TallyOne<T(!new)>(all: set<T>, left: set<T>, x: T, n: nat)
    requires Tallied(all, left, n) && x in left
    ensures Tallied(all, left - {x}, n + if x in all then 1 else 0)
  {
    if x in all {
      assert all - (left - {x}) == (all - left) + {x};
    } else {
      assert all - (left - {x}) == all - left;
    }
  }

  lemma TallyAll<T(!new)>(all: set<T>, n: nat)
    requires Tallied(all, {}, n)
    ensures n == |all|
  {
    assert all - {} == all;
  }

  ghost function MailedJobs(jobs: map<string, JobRow>, now: real, mail: string -> Mail): set<string> {
    set id | id in jobs && SentTier(jobs[id], now, mail(id)).Some?
  }

  ghost function RaisingJobs(jobs: map<string, JobRow>, now: real, mail: string -> Mail): set<string> {
    set id | id in jobs && CountsError(jobs[id], now, mail(id))
  }

  /** The jobs in the middle of a pass: those in `rows` are still to come. */
  ghost predicate JobsPartly(start: map<string, JobRow>, jobs: map<string, JobRow>, rows: set<string>, now: real,
                             mail: string -> Mail)
  {
    && rows <= start.Keys && jobs.Keys == start.Keys
    && (forall id :: id in start ==> jobs[id] == if id in rows then start[id] else Warn(start[id], now, mail(id)))
  }

  lemma OneJobDone(start: map<string, JobRow>, jobs: map<string, JobRow>, rows: set<string>, id: string, now: real,
                   mail: string -> Mail)
    requires JobsPartly(start, jobs, rows, now, mail) && id in rows
    ensures id in jobs && JobsPartly(start, jobs[id := Warn(jobs[id], now, mail(id))], rows - {id}, now, mail)
    ensures id in MailedJobs(start, now, mail) <==> SentTier(jobs[id], now, mail(id)).Some?
    ensures id in RaisingJobs(start, now, mail) <==> CountsError(jobs[id], now, mail(id))
  {
  }

  /** The table in the middle of a pass: the groups in `fps` are still to come. */
  ghost predicate Partly(start: Table, table: Table, fps: set<Fingerprint>, p: FleetPass,
                         expiry: Fingerprint -> Option<real>)
  {
    && fps <= Fingerprints(start, p.now) && table.Keys == start.Keys
    && forall k :: k in start ==>
         table[k] == if start[k].fp in fps then start[k] else AfterRow(start, k, p, expiry)
  }

  lemma NoneDone(start: Table, p: FleetPass, expiry: Fingerprint -> Option<real>)
    ensures Partly(start, start, Fingerprints(start, p.now), p, expiry)
  {
    forall k | k in start && start[k].fp !in Fingerprints(start, p.now)
      ensures AfterRow(start, k, p, expiry) == start[k]
    {
      assert k !in Group(start, start[k].fp, p.now);
    }
  }

  lemma OneDone(start: Table, table: Table, fps: set<Fingerprint>, fp: Fingerprint, p: FleetPass,
                expiry: Fingerprint -> Option<real>)
    requires Partly(start, table, fps, p, expiry) && fp in fps
    ensures Group(start, fp, p.now) != {}
    ensures fp in MailedGroups(start, p, expiry) <==> MailSent(start, fp, p, expiry).Some?
    ensures fp in RaisingGroups(start, p, expiry) <==> GroupRaises(start, fp, p, expiry)
    ensures var mailed := MailSent(start, fp, p, expiry);
            Partly(start, if mailed.Some? then MarkGroup(table, Group(start, fp, p.now), mailed.value) else table,
                   fps - {fp}, p, expiry)
  {
  }

  lemma AllDone(start: Table, table: Table, p: FleetPass, expiry: Fingerprint -> Option<real>)
    requires Partly(start, table, {}, p, expiry)
    ensures table == AfterPass(start, p, expiry)
  {
  }

  /** The fingerprints with a row in the window. */
  function Fingerprints(table: Table, now: real): (r: set<Fingerprint>)
    ensures forall fp :: fp in r <==> Group(table, fp, now) != {}
  {
    var r := set k | k in table && InWindow(table[k].expiresAt, now) :: table[k].fp;
    assert forall k :: k in table && InWindow(table[k].expiresAt, now) ==> k in Group(table, table[k].fp, now);
    assert forall fp, k :: k in Group(table, fp, now) ==> table[k].fp in r;
    r
  }

  ghost function MailedGroups(table: Table, p: FleetPass, expiry: Fingerprint -> Option<real>): set<Fingerprint> {
    set fp | fp in Fingerprints(table, p.now) && MailSent(table, fp, p, expiry).Some?
  }

  ghost function RaisingGroups(table: Table, p: FleetPass, expiry: Fingerprint -> Option<real>): set<Fingerprint> {
    set fp | fp in Fingerprints(table, p.now) && GroupRaises(table, fp, p, expiry)
  }

  /** When the group of a fingerprint is to be mailed, and at which tier: its certificate
      expires within 30 days, some row has not been warned at the tier of the seconds
      left or a closer one, and there is a signer or a row with an address. */
  ghost predicate ToMail(table: Table, fp: Fingerprint, p: FleetPass, expiresAt: real, tier: nat) {
    var left := expiresAt - p.now;
    && 0.0 < left <= 2592000.0
    && tier == (if left < 691200.0 then 7 else if left < 1296000.0 then 14 else 30)
    && (exists k :: k in table && table[k].fp == fp && (table[k].warned == 0 || table[k].warned > tier))
    && (p.signers != [] || exists k :: k in table && table[k].fp == fp && table[k].notify != "")
  }

  lemma WholeGroup(table: Table, fp: Fingerprint, now: real, expiry: Fingerprint -> Option<real>)
    requires SameExpiry(table, expiry)
    ensures InWindow(expiry(fp), now) ==> Group(table, fp, now) == set k | k in table && table[k].fp == fp
    ensures !InWindow(expiry(fp), now) ==> Group(table, fp, now) == {}
  {
  }

  lemma GroupToMail(table: Table, fp: Fingerprint, p: FleetPass, expiry: Fingerprint -> Option<real>, tier: nat)
    requires SameExpiry(table, expiry) && expiry(fp).Some?
    ensures ToMail(table, fp, p, expiry(fp).value, tier) <==>
            GroupDue(table, fp, p.now, expiry) == Some(tier) && HasRecipient(table, Group(table, fp, p.now), p.signers)
  {
    var group := Group(table, fp, p.now);
    WholeGroup(table, fp, p.now, expiry);
    if InWindow(expiry(fp), p.now) {
      LevelByTime(expiry(fp).value, p.now);
      assert forall k :: k in table && table[k].fp == fp <==> k in group;
    }
  }

  /** What a pass does to a fingerprint: when it is to be mailed and the mail goes out,
      every row gets the tier and the fingerprint is counted; otherwise no row changes
      and it is not. An error is counted when it is to be mailed and mail or webhook
      raise. */
  lemma PassExactly(table: Table, fp: Fingerprint, p: FleetPass, expiry: Fingerprint -> Option<real>, tier: nat)
    requires SameExpiry(table, expiry) && expiry(fp).Some?
    ensures ToMail(table, fp, p, expiry(fp).value, tier) ==>
      && (fp in MailedGroups(table, p, expiry) <==> p.mail(fp).Delivered?)
      && (fp in RaisingGroups(table, p, expiry) <==> p.mail(fp).Raised? || p.mail(fp).webhookRaises)
      && (forall k :: k in table && table[k].fp == fp ==>
            AfterPass(table, p, expiry)[k] == if p.mail(fp).Delivered? then table[k].(warned := tier) else table[k])
  {
    GroupToMail(table, fp, p, expiry, tier);
    WholeGroup(table, fp, p.now, expiry);
  }

  lemma PassOtherwise(table: Table, fp: Fingerprint, p: FleetPass, expiry: Fingerprint -> Option<real>)
    requires SameExpiry(table, expiry)
    requires expiry(fp).None? || forall tier :: !ToMail(table, fp, p, expiry(fp).value, tier)
    ensures fp !in MailedGroups(table, p, expiry) && fp !in RaisingGroups(table, p, expiry)
    ensures forall k :: k in table && table[k].fp == fp ==> AfterPass(table, p, expiry)[k] == table[k]
  {
    if expiry(fp).Some? && GroupDue(table, fp, p.now, expiry).Some? {
      GroupToMail(table, fp, p, expiry, GroupDue(table, fp, p.now, expiry).value);
    }
  }

  predicate Noted(seen: map<string, set<string>>, k: Key) {
    k.0 in seen && k.1 in seen[k.0]
  }

  lemma PrunedMore(table: Table, records: seq<Record>, o: Options, hosts: seq<string>, i: nat, paths: set<string>,
                   seen: map<string, set<string>>)
    requires i < |hosts| && paths == if hosts[i] in seen then seen[hosts[i]] else {}
    requires forall k: Key :: Noted(seen, k) <==> k in SeenKeys(records, o)
    ensures var before := Pruned(table, records, o, hosts[..i]);
            Pruned(table, records, o, hosts[..i + 1])
              == map k | k in before && !(k.0 == hosts[i] && k.1 !in paths) :: before[k]
  {
    var before, after := Pruned(table, records, o, hosts[..i]), Pruned(table, records, o, hosts[..i + 1]);
    assert hosts[..i + 1] == hosts[..i] + [hosts[i]];
    forall k | k in table ensures k in after <==> k in before && !(k.0 == hosts[i] && k.1 !in paths) {
      assert Noted(seen, k) <==> k in SeenKeys(records, o);
    }
  }

  lemma OneMore(table: Table, records: seq<Record>, i: nat, o: Options)
    requires i < |records|
    ensures var before, r := AfterRecords(table, records[..i], o), records[i];
      && AfterRecords(table, records[..i + 1], o)
           == (if Accepted(r, o.includeCa) then Apply(before, UpsertOf(r, o.notify), o.expiry) else before)
      && SeenKeys(records[..i + 1], o)
           == SeenKeys(records[..i], o) + (if Accepted(r, o.includeCa) then {(r.host, r.path)} else {})
      && CountMisnamed(records[..i + 1], o.includeCa)
           == CountMisnamed(records[..i], o.includeCa) + if Misnamed(r, o.includeCa) then 1 else 0
  {
    assert records[..i + 1][..i] == records[..i];
  }

  /** The table in the middle of pruning a host: its rows in `rows` are still to come. */
  ghost predicate PrunedPartly(start: Table, table: Table, rows: set<Key>, host: string, paths: set<string>,
                               pruned: nat)
  {
    && (forall k :: k in rows ==> k in start && k.0 == host)
    && table == (map k | k in start && !(k.0 == host && k !in rows && k.1 !in paths) :: start[k])
    && |table.Keys| == |start.Keys| - pruned
  }

  lemma PrunedOne(start: Table, table: Table, rows: set<Key>, k: Key, host: string, paths: set<string>, pruned: nat)
    requires PrunedPartly(start, table, rows, host, paths, pruned) && k in rows
    ensures PrunedPartly(start, if k.1 in paths then table else table - {k}, rows - {k}, host, paths,
                         pruned + if k.1 in paths then 0 else 1)
  {
    if k.1 in paths {
      assert forall j :: j in start && j.0 == host && j.1 !in paths ==> (j in rows <==> j in rows - {k});
    } else {
      assert (table - {k}).Keys == table.Keys - {k};
    }
  }
}
