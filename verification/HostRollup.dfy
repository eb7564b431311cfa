/** The per-host view of the job list (list_job_hosts in backend/routes_jobs.py): the
    one-pass loop, and what its result means. */
module HostRollup {
  import opened Wrappers
  import ExpiryWarnings

  datatype Row = Row(id: string, host: string, status: string, createdAt: Option<real>, completedAt: Option<real>,
                     expiresAt: Option<real>)

  datatype Current = Current(id: string, expiresAt: Option<real>, issuedAt: Option<real>, daysLeft: Option<int>)

  datatype Host = Host(total: nat, counts: map<string, nat>, valid: nat, current: Option<Current>, lastActivity: real)

  datatype Health = Expired | Critical | Pending | Warn | Ok

  // ----------------------------------------------------------------------------- counting

  datatype Query =
    | Everything
    | OfHost(host: string)
    | OfStatus(host: string, status: string)
    | Live(host: string, now: real)

  predicate IsLive(r: Row, now: real) {
    r.status == "issued" && (r.expiresAt.Some? ==> r.expiresAt.value > now)
  }

  predicate Selects(q: Query, r: Row) {
    match q
    case Everything => true
    case OfHost(h) => r.host == h
    case OfStatus(h, s) => r.host == h && r.status == s
    case Live(h, now) => r.host == h && IsLive(r, now)
  }

  function Hit(q: Query, r: Row): nat {
    if Selects(q, r) then 1 else 0
  }

  function Count(rows: seq<Row>, q: Query): nat {
    if rows == [] then 0 else Count(rows[..|rows| - 1], q) + Hit(q, rows[|rows| - 1])
  }

  function Sum(rows: seq<Row>, parts: seq<Query>): nat {
    if parts == [] then 0 else Count(rows, parts[0]) + Sum(rows, parts[1..])
  }

  function Hits(parts: seq<Query>, r: Row): nat {
    if parts == [] then 0 else Hit(parts[0], r) + Hits(parts[1..], r)
  }

  lemma {:induction false} SumOfNone(parts: seq<Query>)
    ensures Sum([], parts) == 0
  {
    if parts == [] {
    } else {
      SumOfNone(parts[1..]);
    }
  }

  lemma {:induction false} SumMore(rows: seq<Row>, parts: seq<Query>)
    requires rows != []
    ensures Sum(rows, parts) == Sum(rows[..|rows| - 1], parts) + Hits(parts, rows[|rows| - 1])
  {
    if parts == [] {
    } else {
      SumMore(rows, parts[1..]);
    }
  }

  /** Queries that split the rows of another between them count as much as it. */
  lemma {:induction false} PartsAddUp(rows: seq<Row>, whole: Query, parts: seq<Query>)
    requires forall i :: 0 <= i < |rows| ==> Hits(parts, rows[i]) == Hit(whole, rows[i])
    ensures Sum(rows, parts) == Count(rows, whole)
  {
    if rows == [] {
      SumOfNone(parts);
    } else {
      PartsAddUp(rows[..|rows| - 1], whole, parts);
      SumMore(rows, parts);
    }
  }

  predicate Different(s: seq<string>) {
    forall i, j :: 0 <= i < j < |s| ==> s[i] != s[j]
  }

  function ByHost(hosts: seq<string>): seq<Query> {
    seq(|hosts|, i requires 0 <= i < |hosts| => OfHost(hosts[i]))
  }

  function ByStatus(host: string, statuses: seq<string>): seq<Query> {
    seq(|statuses|, i requires 0 <= i < |statuses| => OfStatus(host, statuses[i]))
  }

  lemma {:induction false} HostHit(hosts: seq<string>, r: Row)
    requires Different(hosts)
    ensures Hits(ByHost(hosts), r) == if r.host in hosts then 1 else 0
  {
    if hosts == [] {
    } else {
      HostHit(hosts[1..], r);
      assert ByHost(hosts)[1..] == ByHost(hosts[1..]);
    }
  }

  lemma {:induction false} StatusHit(host: string, statuses: seq<string>, r: Row)
    requires Different(statuses)
    ensures Hits(ByStatus(host, statuses), r) == if r.host == host && r.status in statuses then 1 else 0
  {
    if statuses == [] {
    } else {
      StatusHit(host, statuses[1..], r);
      assert ByStatus(host, statuses)[1..] == ByStatus(host, statuses[1..]);
    }
  }

  // -------------------------------------------------------------------------- the current one

  /** No expiry ranks highest. */
  predicate Above(a: Option<real>, b: Option<real>) {
    b.Some? && (a.None? || a.value > b.value)
  }

  /** The first live row of the host with the greatest expiry. */
  function Best(rows: seq<Row>, host: string, now: real): Option<Row> {
    if rows == [] then None
    else
      var before, r := Best(rows[..|rows| - 1], host, now), rows[|rows| - 1];
      if Selects(Live(host, now), r) && (before.None? || Above(r.expiresAt, before.value.expiresAt)) then Some(r)
      else before
  }

  /** Best means what it says: a live row of the host, above which there is none. */
  lemma {:induction false} BestIsGreatest(rows: seq<Row>, host: string, now: real)
    ensures var b := Best(rows, host, now);
      && (b.Some? ==> b.value in rows && Selects(Live(host, now), b.value))
      && (b.None? <==> Count(rows, Live(host, now)) == 0)
    ensures var b := Best(rows, host, now);
      forall i :: 0 <= i < |rows| && Selects(Live(host, now), rows[i])
                  ==> b.Some? && !Above(rows[i].expiresAt, b.value.expiresAt)
  {
    if rows == [] {
    } else {
      BestIsGreatest(rows[..|rows| - 1], host, now);
    }
  }

  function AsCurrent(r: Row, now: real): Current {
    Current(r.id, r.expiresAt, if r.completedAt.Some? && r.completedAt.value != 0.0 then r.completedAt else r.createdAt,
            if r.expiresAt.None? then None else Some(ExpiryWarnings.DaysLeft(r.expiresAt.value, now)))
  }

  function LastActivity(rows: seq<Row>, host: string): real {
    if rows == [] then 0.0
    else
      var before, r := LastActivity(rows[..|rows| - 1], host), rows[|rows| - 1];
      if r.host == host && r.createdAt.Some? && r.createdAt.value > before then r.createdAt.value else before
  }

  /** What the entry of a host says about the rows. */
  ghost predicate Summarises(e: Host, rows: seq<Row>, host: string, now: real) {
    && e.total == Count(rows, OfHost(host))
    && (forall s :: (if s in e.counts then e.counts[s] else 0) == Count(rows, OfStatus(host, s)))
    && e.valid == Count(rows, Live(host, now))
    && e.current == (var b := Best(rows, host, now); if b.Some? then Some(AsCurrent(b.value, now)) else None)
    && e.lastActivity == LastActivity(rows, host)
  }

  ghost predicate Listed(order: seq<string>, rows: seq<Row>) {
    Different(order) && forall h :: h in order <==> Count(rows, OfHost(h)) > 0
  }

  function EmptyHost(): Host {
    Host(0, map[], 0, None, 0.0)
  }

  /** One row added to the entry of its host. */
  function AddRow(h: Host, r: Row, now: real): Host {
    var activity :=
      if r.createdAt.Some? && r.createdAt.value > h.lastActivity then r.createdAt.value else h.lastActivity;
    var counted := h.(total := h.total + 1, lastActivity := activity,
                      counts := h.counts[r.status := (if r.status in h.counts then h.counts[r.status] else 0) + 1]);
    if !IsLive(r, now) then counted
    else
      var valid := counted.(valid := h.valid + 1);
      if h.current.None? || Above(r.expiresAt, h.current.value.expiresAt)
      then valid.(current := Some(AsCurrent(r, now))) else valid
  }

  lemma RowAdded(h: Host, rows: seq<Row>, r: Row, now: real)
    requires Summarises(h, rows, r.host, now)
    ensures Summarises(AddRow(h, r, now), rows + [r], r.host, now)
  {
    var more := rows + [r];
    assert more[..|rows|] == rows;
    var after := AddRow(h, r, now);
    forall s ensures (if s in after.counts then after.counts[s] else 0) == Count(more, OfStatus(r.host, s)) {
      assert (if s in h.counts then h.counts[s] else 0) == Count(rows, OfStatus(r.host, s));
    }
  }

  lemma OtherRow(h: Host, rows: seq<Row>, r: Row, host: string, now: real)
    requires Summarises(h, rows, host, now) && r.host != host
    ensures Summarises(h, rows + [r], host, now)
  {
    var more := rows + [r];
    assert more[..|rows|] == rows;
    forall s ensures (if s in h.counts then h.counts[s] else 0) == Count(more, OfStatus(host, s)) {
      assert (if s in h.counts then h.counts[s] else 0) == Count(rows, OfStatus(host, s));
    }
  }

  lemma {:induction false} NoRows(rows: seq<Row>, host: string, now: real)
    requires Count(rows, OfHost(host)) == 0
    ensures Summarises(EmptyHost(), rows, host, now)
  {
    if rows == [] {
    } else {
      NoRows(rows[..|rows| - 1], host, now);
      OtherRow(EmptyHost(), rows[..|rows| - 1], rows[|rows| - 1], host, now);
      assert rows == rows[..|rows| - 1] + [rows[|rows| - 1]];
    }
  }

  /** The loop over the rows: an entry for each host, in order of first mention. */
  method ListJobHosts(rows: seq<Row>, now: real) returns (order: seq<string>, hosts: map<string, Host>)
    ensures Listed(order, rows) && hosts.Keys == set h | h in order
    ensures forall h :: h in hosts ==> Summarises(hosts[h], rows, h, now)
    ensures SumTotals(order, hosts) == |rows|
  {
    order, hosts := [], map[];
    for i := 0 to |rows|
      invariant Listed(order, rows[..i]) && hosts.Keys == set h | h in order
      invariant forall h :: h in hosts ==> Summarises(hosts[h], rows[..i], h, now)
    {
      var r := rows[i];
      assert rows[..i + 1] == rows[..i] + [r] && rows[..i + 1][..i] == rows[..i];
      if r.host !in hosts {
        NoRows(rows[..i], r.host, now);
        order, hosts := order + [r.host], hosts[r.host := EmptyHost()];
      }
      RowAdded(hosts[r.host], rows[..i], r, now);
      forall h | h in hosts && h != r.host ensures Summarises(hosts[h], rows[..i + 1], h, now) {
        OtherRow(hosts[h], rows[..i], r, h, now);
      }
      hosts := hosts[r.host := AddRow(hosts[r.host], r, now)];
    }
    assert rows[..|rows|] == rows;
    TotalsAddUp(rows, order, hosts, now);
  }

  /** The total fields of the hosts in order. */
  function SumTotals(order: seq<string>, hosts: map<string, Host>): nat
    requires forall h :: h in order ==> h in hosts
  {
    if order == [] then 0 else hosts[order[0]].total + SumTotals(order[1..], hosts)
  }

  lemma {:induction false} TotalsAreCounts(rows: seq<Row>, order: seq<string>, hosts: map<string, Host>)
    requires forall h :: h in order ==> h in hosts && hosts[h].total == Count(rows, OfHost(h))
    ensures SumTotals(order, hosts) == Sum(rows, ByHost(order))
  {
    if order == [] {
    } else {
      TotalsAreCounts(rows, order[1..], hosts);
      assert ByHost(order)[1..] == ByHost(order[1..]);
    }
  }

  /** The totals of the hosts add up to the number of rows. */
  lemma TotalsAddUp(rows: seq<Row>, order: seq<string>, hosts: map<string, Host>, now: real)
    requires Listed(order, rows) && hosts.Keys == set h | h in order
    requires forall h :: h in hosts ==> Summarises(hosts[h], rows, h, now)
    ensures SumTotals(order, hosts) == |rows|
  {
    TotalsAreCounts(rows, order, hosts);
    forall i | 0 <= i < |rows| ensures Hits(ByHost(order), rows[i]) == Hit(Everything, rows[i]) {
      HostHit(order, rows[i]);
      Counted(rows, OfHost(rows[i].host), i);
    }
    PartsAddUp(rows, Everything, ByHost(order));
    CountAll(rows);
  }

  lemma {:induction false} CountAll(rows: seq<Row>)
    ensures Count(rows, Everything) == |rows|
  {
    if rows == [] {
    } else {
      CountAll(rows[..|rows| - 1]);
    }
  }

  lemma {:induction false} Counted(rows: seq<Row>, q: Query, i: nat)
    requires i < |rows| && Selects(q, rows[i])
    ensures Count(rows, q) > 0
  {
    if i == |rows| - 1 {
    } else {
      Counted(rows[..|rows| - 1], q, i);
    }
  }

  /** The counts of a host's statuses add up to its total. */
  lemma CountsAddUp(e: Host, rows: seq<Row>, host: string, now: real, statuses: seq<string>)
    requires Summarises(e, rows, host, now) && Different(statuses) && forall s :: s in e.counts ==> s in statuses
    ensures Sum(rows, ByStatus(host, statuses)) == e.total
  {
    forall i | 0 <= i < |rows| ensures Hits(ByStatus(host, statuses), rows[i]) == Hit(OfHost(host), rows[i]) {
      StatusHit(host, statuses, rows[i]);
      if rows[i].host == host {
        Counted(rows, OfStatus(host, rows[i].status), i);
        assert (if rows[i].status in e.counts then e.counts[rows[i].status] else 0) > 0;
      }
    }
    PartsAddUp(rows, OfHost(host), ByStatus(host, statuses));
  }

  // ------------------------------------------------------------------------------- health

  function HealthOf(e: Host): Health {
    if e.current.None? then
      if "pending" in e.counts && e.counts["pending"] != 0 then Pending else Expired
    else if e.current.value.daysLeft.Some? && e.current.value.daysLeft.value <= 7 then Critical
    else if e.current.value.daysLeft.Some? && e.current.value.daysLeft.value <= 30 then Warn
    else Ok
  }

  /** The certificate shown is that of a live issued row of the host, with no live row of
      a later expiry. */
  lemma CurrentIsARow(e: Host, rows: seq<Row>, host: string, now: real)
    requires Summarises(e, rows, host, now) && e.current.Some?
    ensures exists r :: r in rows && r.host == host && r.status == "issued" && r.id == e.current.value.id
                        && r.expiresAt == e.current.value.expiresAt && (r.expiresAt.Some? ==> r.expiresAt.value > now)
                        && e.current.value.issuedAt ==
                           if r.completedAt.None? || r.completedAt == Some(0.0) then r.createdAt else r.completedAt
    ensures forall r :: r in rows && r.host == host && r.status == "issued"
              && (r.expiresAt.Some? ==> r.expiresAt.value > now) && e.current.value.expiresAt.Some?
              ==> r.expiresAt.Some? && r.expiresAt.value <= e.current.value.expiresAt.value
  {
    BestIsGreatest(rows, host, now);
    var b := Best(rows, host, now).value;
    assert b in rows && Selects(Live(host, now), b);
    forall r | r in rows && Selects(Live(host, now), r) ensures !Above(r.expiresAt, b.expiresAt) {
      var i :| 0 <= i < |rows| && rows[i] == r;
    }
  }

  /** Health by the time left, in seconds, of the certificate shown: critical below 8
      days, a warning below 31; with no live certificate, whether a request is pending. */
  lemma HealthMeans(e: Host, rows: seq<Row>, host: string, now: real)
    requires Summarises(e, rows, host, now)
    ensures var live := exists r :: r in rows && r.host == host && r.status == "issued"
                                    && (r.expiresAt.Some? ==> r.expiresAt.value > now);
            var waiting := exists r :: r in rows && r.host == host && r.status == "pending";
      && (e.current.Some? <==> live)
      && HealthOf(e) == if !live then if waiting then Pending else Expired
                        else if e.current.value.expiresAt.None? then Ok
                        else
                          var left := e.current.value.expiresAt.value - now;
                          if left < 691200.0 then Critical else if left < 2678400.0 then Warn else Ok
  {
    BestIsGreatest(rows, host, now);
    Occurs(rows, Live(host, now));
    Occurs(rows, OfStatus(host, "pending"));
    assert (if "pending" in e.counts then e.counts["pending"] else 0) == Count(rows, OfStatus(host, "pending"));
    if e.current.Some? && e.current.value.expiresAt.Some? {
      var left := e.current.value.expiresAt.value - now;
      assert left / 86400.0 * 86400.0 == left;
    }
  }

  lemma {:induction false} Occurs(rows: seq<Row>, q: Query)
    ensures Count(rows, q) > 0 <==> exists r :: r in rows && Selects(q, r)
  {
    if rows == [] {
    } else {
      var init, last := rows[..|rows| - 1], rows[|rows| - 1];
      Occurs(init, q);
      assert rows == init + [last];
    }
  }

  /** Last activity is the latest creation of a row of the host, or zero. */
  lemma {:induction false} LastActivityIsLatest(rows: seq<Row>, host: string)
    ensures forall r :: r in rows && r.host == host && r.createdAt.Some? ==>
              r.createdAt.value <= LastActivity(rows, host)
    ensures LastActivity(rows, host) == 0.0
            || exists r :: r in rows && r.host == host && r.createdAt == Some(LastActivity(rows, host))
    ensures LastActivity(rows, host) >= 0.0
  {
    if rows == [] {
    } else {
      var init, last := rows[..|rows| - 1], rows[|rows| - 1];
      LastActivityIsLatest(init, host);
      assert rows == init + [last];
    }
  }

  function OlderValid(e: Host): nat {
    if e.valid > 0 then e.valid - 1 else 0
  }

  /** The superseded certificates are the live rows besides the current one. */
  lemma OlderAreTheOthers(e: Host, rows: seq<Row>, host: string, now: real)
    requires Summarises(e, rows, host, now)
    ensures Count(rows, Live(host, now)) == OlderValid(e) + if e.current.Some? then 1 else 0
  {
    BestIsGreatest(rows, host, now);
  }

  function Without(rows: seq<Row>, i: nat): seq<Row>
    requires i < |rows|
  {
    rows[..i] + rows[i + 1..]
  }

  lemma {:induction false} CountWithout(rows: seq<Row>, i: nat, q: Query)
    requires i < |rows|
    ensures Count(rows, q) == Count(Without(rows, i), q) + Hit(q, rows[i])
  {
    var n := |rows| - 1;
    if i == n {
      assert Without(rows, i) == rows[..n];
    } else {
      CountWithout(rows[..n], i, q);
      assert Without(rows, i)[..n - 1] == Without(rows[..n], i);
    }
  }

  lemma WithoutOne(rows: seq<Row>, i: nat)
    requires i < |rows|
    ensures multiset(Without(rows, i)) == multiset(rows) - multiset{rows[i]}
  {
    assert rows == rows[..i] + [rows[i]] + rows[i + 1..];
  }

  lemma {:induction false} CountPermuted(a: seq<Row>, b: seq<Row>, q: Query)
    requires multiset(a) == multiset(b)
    ensures Count(a, q) == Count(b, q)
  {
    if a == [] {
      assert |multiset(b)| == 0;
    } else {
      var n := |a| - 1;
      assert a[n] in multiset(b);
      var i :| 0 <= i < |b| && b[i] == a[n];
      WithoutOne(a, n);
      WithoutOne(b, i);
      CountPermuted(Without(a, n), Without(b, i), q);
      CountWithout(a, n, q);
      CountWithout(b, i, q);
    }
  }

  lemma BestPermuted(a: seq<Row>, b: seq<Row>, host: string, now: real)
    requires multiset(a) == multiset(b)
    ensures var x, y := Best(a, host, now), Best(b, host, now);
            (x.Some? <==> y.Some?) && (x.Some? ==> x.value.expiresAt == y.value.expiresAt)
  {
    BestIsGreatest(a, host, now);
    BestIsGreatest(b, host, now);
    var x, y := Best(a, host, now), Best(b, host, now);
    if x.Some? {
      assert x.value in multiset(b);
    }
    if y.Some? {
      assert y.value in multiset(a);
    }
  }

  /** Health, the counts and the expiry shown do not depend on the order of the rows. */
  lemma OrderDoesNotMatter(a: seq<Row>, b: seq<Row>, x: Host, y: Host, host: string, now: real)
    requires multiset(a) == multiset(b) && Summarises(x, a, host, now) && Summarises(y, b, host, now)
    ensures HealthOf(x) == HealthOf(y) && x.total == y.total && OlderValid(x) == OlderValid(y)
  {
    BestPermuted(a, b, host, now);
    CountPermuted(a, b, OfHost(host));
    CountPermuted(a, b, Live(host, now));
    CountPermuted(a, b, OfStatus(host, "pending"));
    assert (if "pending" in x.counts then x.counts["pending"] else 0) == Count(a, OfStatus(host, "pending"));
    assert (if "pending" in y.counts then y.counts["pending"] else 0) == Count(b, OfStatus(host, "pending"));
  }
}
