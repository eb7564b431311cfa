/** Fleet certificates: rows keyed by host and path, grouped by fingerprint for
    expiry mail (run_expiry_warnings, second half), joined and left by imports
    (backend/import_certs.py), by issuance (_fleet_track_issued in
    backend/app.py) and by deletion. */
module FleetWarnings {
  import opened Wrappers
  import opened ExpiryWarnings

  type Fingerprint = string
  type Key = (string, string)     // host, path

  // notify is the stripped address, empty if there is none.
  datatype FleetRow = FleetRow(fp: Fingerprint, expiresAt: Option<real>, warned: nat, notify: string)

  type Table = map<Key, FleetRow>

  // ------------------------------------------------------------------ one warning pass

  /** The rows of one fingerprint that a pass at `now` puts in its group. */
  function Group(table: Table, fp: Fingerprint, now: real): set<Key> {
    set k | k in table && table[k].fp == fp && InWindow(table[k].expiresAt, now)
  }

  predicate SomeDue(table: Table, group: set<Key>, level: nat)
    requires group <= table.Keys
  {
    exists k :: k in group && !AlreadyWarned(table[k].warned, level)
  }

  predicate HasRecipient(table: Table, group: set<Key>, signers: seq<string>)
    requires group <= table.Keys
  {
    signers != [] || exists k :: k in group && table[k].notify != ""
  }

  /** The tier at which the group is due, from the expiry its rows share. */
  function GroupDue(table: Table, fp: Fingerprint, now: real, expiry: Fingerprint -> Option<real>): Option<nat> {
    var group := Group(table, fp, now);
    if group == {} || expiry(fp).None? then None
    else
      var level := Level(DaysLeft(expiry(fp).value, now));
      if level.Some? && SomeDue(table, group, level.value) then level else None
  }

  /** A pass as the fleet sees it: clock, fallback recipients, and the fate of the
      mail for each fingerprint. */
  datatype FleetPass = FleetPass(now: real, signers: seq<string>, mail: Fingerprint -> Mail)

  function MailSent(table: Table, fp: Fingerprint, p: FleetPass, expiry: Fingerprint -> Option<real>): Option<nat> {
    var level := GroupDue(table, fp, p.now, expiry);
    if level.Some? && HasRecipient(table, Group(table, fp, p.now), p.signers) && p.mail(fp).Delivered?
    then level else None
  }

  /** An exception, of the mail or of the webhook after it, is counted and passed over. */
  predicate GroupRaises(table: Table, fp: Fingerprint, p: FleetPass, expiry: Fingerprint -> Option<real>) {
    GroupDue(table, fp, p.now, expiry).Some? && HasRecipient(table, Group(table, fp, p.now), p.signers)
    && (p.mail(fp).Raised? || p.mail(fp).webhookRaises)
  }

  /** A sent mail marks every row of its group. */
  function MarkGroup(table: Table, group: set<Key>, level: nat): Table {
    map k | k in table :: if k in group then table[k].(warned := level) else table[k]
  }

  function AfterRow(table: Table, k: Key, p: FleetPass, expiry: Fingerprint -> Option<real>): FleetRow
    requires k in table
  {
    var sent := MailSent(table, table[k].fp, p, expiry);
    if InWindow(table[k].expiresAt, p.now) && sent.Some? then table[k].(warned := sent.value) else table[k]
  }

  function AfterPass(table: Table, p: FleetPass, expiry: Fingerprint -> Option<real>): Table {
    map k | k in table :: AfterRow(table, k, p, expiry)
  }

  /** A fingerprint identifies a certificate, which has one expiry. */
  ghost predicate SameExpiry(table: Table, expiry: Fingerprint -> Option<real>) {
    forall k :: k in table ==> table[k].expiresAt == expiry(table[k].fp)
  }

  // ------------------------------------------------------------------ joining and leaving

  datatype Change =
    | Upsert(key: Key, fp: Fingerprint, notify: string)   // import_certs.main
    | Track(key: Key, fp: Fingerprint, notify: string)    // _fleet_track_issued
    | Drop(key: Key)                                      // delete, prune
    | Warnings(p: FleetPass)

  function Apply(table: Table, c: Change, expiry: Fingerprint -> Option<real>): Table {
    match c
    case Upsert(k, fp, notify) =>
      if k !in table then table[k := FleetRow(fp, expiry(fp), 0, notify)]
      else if table[k].fp != fp then table[k := FleetRow(fp, expiry(fp), 0, table[k].notify)]
      else table[k := table[k].(expiresAt := expiry(fp))]
    case Track(k, fp, notify) => table[k := FleetRow(fp, expiry(fp), 0, notify)]
    case Drop(k) => table - {k}
    case Warnings(p) => AfterPass(table, p, expiry)
  }

  /** The change puts a row with a reset tier under this fingerprint. */
  predicate Joins(table: Table, c: Change, fp: Fingerprint) {
    match c
    case Upsert(k, f, _) => f == fp && (k !in table || table[k].fp != fp)
    case Track(_, f, _) => f == fp
    case _ => false
  }

  /** An import or an issuance joins a fingerprint exactly when it puts a row there that
      was not, or tracks one anew; the row has not been warned. */
  lemma JoinMeans(table: Table, c: Change, fp: Fingerprint, expiry: Fingerprint -> Option<real>)
    requires c.Upsert? || c.Track?
    ensures var after := Apply(table, c, expiry);
      && (Joins(table, c, fp) <==> after[c.key].fp == fp && (c.Track? || !(c.key in table && table[c.key].fp == fp)))
      && (Joins(table, c, fp) ==> after[c.key].warned == 0)
      && (c.key in table && !Joins(table, c, fp) && after[c.key].fp == fp ==>
            after[c.key].warned == table[c.key].warned)
  {
  }

  predicate Mails(table: Table, c: Change, fp: Fingerprint, expiry: Fingerprint -> Option<real>) {
    c.Warnings? && MailSent(table, fp, c.p, expiry).Some?
  }

  function CountJoins(table: Table, run: seq<Change>, fp: Fingerprint, expiry: Fingerprint -> Option<real>): nat
    decreases |run|
  {
    if run == [] then 0
    else (if Joins(table, run[0], fp) then 1 else 0) + CountJoins(Apply(table, run[0], expiry), run[1..], fp, expiry)
  }

  function CountMails(table: Table, run: seq<Change>, fp: Fingerprint, expiry: Fingerprint -> Option<real>): nat
    decreases |run|
  {
    if run == [] then 0
    else
      (if Mails(table, run[0], fp, expiry) then 1 else 0)
      + CountMails(Apply(table, run[0], expiry), run[1..], fp, expiry)
  }

  /** The clocks of the passes do not run back, and start no earlier than `now`. */
  ghost predicate ClockFrom(run: seq<Change>, now: real)
    decreases |run|
  {
    run == [] ||
    if run[0].Warnings? then now <= run[0].p.now && ClockFrom(run[1..], run[0].p.now)
    else ClockFrom(run[1..], now)
  }

  // --------------------------------------------------------------------- the mail bound

  function TierOf(expiresAt: Option<real>, now: real): nat {
    if expiresAt.None? then 0
    else
      var level := Level(DaysLeft(expiresAt.value, now));
      if level.Some? then level.value else 30
  }

  lemma TierFalls(expiresAt: Option<real>, now: real, later: real)
    requires now <= later
    ensures TierOf(expiresAt, later) <= TierOf(expiresAt, now)
  {
    if expiresAt.Some? {
      assert (expiresAt.value - later) / 86400.0 <= (expiresAt.value - now) / 86400.0;
    }
  }

  /** Since the last mail at tier `last` (0: none yet), the rows of the fingerprint
      carry that tier or a reset one. */
  ghost predicate MarkedSince(table: Table, fp: Fingerprint, last: nat) {
    last in {0, 7, 14, 30}
    && (last != 0 ==> forall k :: k in table && table[k].fp == fp ==> table[k].warned in {0, last})
  }

  ghost predicate ResetRow(table: Table, fp: Fingerprint) {
    exists k :: k in table && table[k].fp == fp && table[k].warned == 0
  }

  /** Mails still possible without a join: one for each lower tier, and one for a
      row that joined since the last mail. */
  ghost function Credit(table: Table, fp: Fingerprint, last: nat): nat {
    Room(last) + if last != 0 && ResetRow(table, fp) then 1 else 0
  }

  /** The tier of the last mail for the fingerprint after one change. */
  function LastTier(table: Table, c: Change, fp: Fingerprint, expiry: Fingerprint -> Option<real>, last: nat): nat {
    if Mails(table, c, fp, expiry) then MailSent(table, fp, c.p, expiry).value else last
  }

  lemma PassKeepsCredit(table: Table, p: FleetPass, fp: Fingerprint, expiry: Fingerprint -> Option<real>, last: nat)
    requires SameExpiry(table, expiry) && MarkedSince(table, fp, last)
    requires last != 0 ==> TierOf(expiry(fp), p.now) <= last
    ensures SameExpiry(AfterPass(table, p, expiry), expiry)
    ensures var sent := MailSent(table, fp, p, expiry);
            var now := if sent.Some? then sent.value else last;
      && MarkedSince(AfterPass(table, p, expiry), fp, now)
      && Credit(AfterPass(table, p, expiry), fp, now) + (if sent.Some? then 1 else 0) <= Credit(table, fp, last)
      && (sent.Some? ==> now == TierOf(expiry(fp), p.now))
  {
    var after := AfterPass(table, p, expiry);
    var sent := MailSent(table, fp, p, expiry);
    if sent.Some? {
      var group := Group(table, fp, p.now);
      assert forall k :: k in table && table[k].fp == fp ==> k in group;
      assert forall k :: k in after && after[k].fp == fp ==> after[k].warned == sent.value;
      assert !ResetRow(after, fp);
      if sent.value == last {
        var k :| k in group && !AlreadyWarned(table[k].warned, last);
        assert ResetRow(table, fp);
      }
    } else {
      assert forall k :: k in table && table[k].fp == fp ==> after[k] == table[k];
      if ResetRow(after, fp) {
        var k :| k in after && after[k].fp == fp && after[k].warned == 0;
        assert ResetRow(table, fp);
      }
    }
  }

  lemma ChangeKeepsCredit(table: Table, c: Change, fp: Fingerprint, expiry: Fingerprint -> Option<real>, last: nat)
    requires SameExpiry(table, expiry) && MarkedSince(table, fp, last) && !c.Warnings?
    ensures SameExpiry(Apply(table, c, expiry), expiry)
    ensures MarkedSince(Apply(table, c, expiry), fp, last)
    ensures Credit(Apply(table, c, expiry), fp, last) <= Credit(table, fp, last) + if Joins(table, c, fp) then 1 else 0
  {
    var after := Apply(table, c, expiry);
    if !Joins(table, c, fp) && ResetRow(after, fp) {
      var k :| k in after && after[k].fp == fp && after[k].warned == 0;
      assert k in table && table[k].fp == fp && table[k].warned == 0;
    }
  }

  lemma {:induction false} MailsWithinCredit(table: Table, run: seq<Change>, fp: Fingerprint,
                                             expiry: Fingerprint -> Option<real>, last: nat, now: real)
    requires SameExpiry(table, expiry) && MarkedSince(table, fp, last) && ClockFrom(run, now)
    requires last != 0 ==> TierOf(expiry(fp), now) <= last
    ensures CountMails(table, run, fp, expiry) <= Credit(table, fp, last) + CountJoins(table, run, fp, expiry)
    decreases |run|
  {
    if run == [] {
    } else {
      var c := run[0];
      if c.Warnings? {
        TierFalls(expiry(fp), now, c.p.now);
        PassKeepsCredit(table, c.p, fp, expiry, last);
        MailsWithinCredit(Apply(table, c, expiry), run[1..], fp, expiry, LastTier(table, c, fp, expiry, last), c.p.now);
      } else {
        ChangeKeepsCredit(table, c, fp, expiry, last);
        MailsWithinCredit(Apply(table, c, expiry), run[1..], fp, expiry, last, now);
      }
    }
  }

  /** Over any run of imports, issuances, deletions and passes with a clock that
      does not run back, one fingerprint causes at most three mails and one more
      for each row that joined it with its tier reset, whatever the table held. */
  lemma FleetMailBound(table: Table, run: seq<Change>, fp: Fingerprint, expiry: Fingerprint -> Option<real>, now: real)
    requires SameExpiry(table, expiry) && ClockFrom(run, now)
    ensures CountMails(table, run, fp, expiry) <= 3 + CountJoins(table, run, fp, expiry)
  {
    MailsWithinCredit(table, run, fp, expiry, 0, now);
  }
}
