/** Tiered expiry warnings for the dashboard's own certificates
    (run_expiry_warnings in backend/routes_admin.py, first half): which warnings
    one job gets over any sequence of passes. */
module ExpiryWarnings {
  import opened Wrappers

  const HORIZON := 2592000.0         // the widest tier, 30 days
  const FIFTEEN_DAYS := 1296000.0
  const EIGHT_DAYS := 691200.0
  const SEVEN_DAYS := 604800.0

  /** The columns of an issued job the pass reads. warned is 0 until a warning. */
  datatype JobRow = JobRow(issued: bool, expiresAt: Option<real>, warned: nat)

  /** How one warning mail ends. Webhooks fire after the mail and may raise. */
  datatype Mail = Delivered(webhookRaises: bool) | NotSent(webhookRaises: bool) | Raised

  function DaysLeft(expiresAt: real, now: real): int {
    ((expiresAt - now) / 86400.0).Floor
  }

  /** The closest tier the remaining days have come within. */
  function Level(days: int): (r: Option<nat>)
    ensures r.Some? ==> r.value in {30, 14, 7} && days <= r.value
    ensures days <= 30 ==> r.Some?
    ensures r.Some? && days <= 14 ==> r.value <= 14
    ensures r.Some? && days <= 7 ==> r.value == 7
  {
    if days <= 7 then Some(7) else if days <= 14 then Some(14) else if days <= 30 then Some(30) else None
  }

  predicate InWindow(expiresAt: Option<real>, now: real) {
    expiresAt.Some? && now < expiresAt.value <= now + HORIZON
  }

  predicate AlreadyWarned(warned: nat, level: nat) {
    warned != 0 && warned <= level
  }

  /** The tier at which the job is due a warning. */
  function Due(row: JobRow, now: real): Option<nat> {
    if row.issued && InWindow(row.expiresAt, now) then
      var level := Level(DaysLeft(row.expiresAt.value, now));
      if level.Some? && !AlreadyWarned(row.warned, level.value) then level else None
    else None
  }

  function SentTier(row: JobRow, now: real, mail: Mail): Option<nat> {
    if mail.Delivered? then Due(row, now) else None
  }

  function Warn(row: JobRow, now: real, mail: Mail): JobRow {
    var sent := SentTier(row, now, mail);
    if sent.Some? then row.(warned := sent.value) else row
  }

  /** An exception, of the mail or of a webhook after it, is counted and passed over. */
  predicate CountsError(row: JobRow, now: real, mail: Mail) {
    Due(row, now).Some? && (mail.Raised? || mail.webhookRaises)
  }

  /** The tier for the seconds left, if a warning is due at all: until the very last
      second, from 30 days on, at a closer tier than the one recorded. */
  function TierBySeconds(left: real, warned: nat): Option<nat> {
    var tier := if left < 691200.0 then 7 else if left < 1296000.0 then 14 else 30;
    if 0.0 < left <= 2592000.0 && (warned == 0 || warned > tier) then Some(tier) else None
  }

  /** What a pass does to a job, by the seconds left: it records the tier exactly when
      the job is issued, a warning is due, and the mail is delivered. */
  lemma WarnExactly(row: JobRow, now: real, mail: Mail)
    ensures var due := if row.issued && row.expiresAt.Some?
                       then TierBySeconds(row.expiresAt.value - now, row.warned) else None;
      && SentTier(row, now, mail) == (if mail.Delivered? then due else None)
      && Warn(row, now, mail) == (if due.Some? && mail.Delivered? then row.(warned := due.value) else row)
      && (CountsError(row, now, mail) <==> due.Some? && (mail.Raised? || mail.webhookRaises))
  {
    if InWindow(row.expiresAt, now) { LevelByTime(row.expiresAt.value, now); }
  }

  // ---------------------------------------------------------- one job, many passes

  /** A pass as one job sees it: the clock, whether the job is issued then, and
      the fate of the mail. */
  datatype Pass = Pass(now: real, issued: bool, mail: Mail)

  function Tiers(row: JobRow, passes: seq<Pass>): seq<nat>
    decreases |passes|
  {
    if passes == [] then []
    else
      var p := passes[0];
      var seen := row.(issued := p.issued);
      var sent := SentTier(seen, p.now, p.mail);
      (if sent.Some? then [sent.value] else []) + Tiers(Warn(seen, p.now, p.mail), passes[1..])
  }

  ghost predicate StrictlyDecreasing(s: seq<nat>) {
    forall i, j :: 0 <= i < j < |s| ==> s[j] < s[i]
  }

  /** Whatever the clock does and whichever mails fail, the warnings of one job
      have strictly decreasing tiers, each below the tier recorded before. */
  lemma {:induction false} TiersDecrease(row: JobRow, passes: seq<Pass>)
    ensures StrictlyDecreasing(Tiers(row, passes))
    ensures forall t :: t in Tiers(row, passes) ==> t in {30, 14, 7} && (row.warned != 0 ==> t < row.warned)
    decreases |passes|
  {
    if passes == [] {
    } else {
      var p := passes[0];
      var seen := row.(issued := p.issued);
      TiersDecrease(Warn(seen, p.now, p.mail), passes[1..]);
      var sent := SentTier(seen, p.now, p.mail);
      if sent.Some? {
        var rest := Tiers(Warn(seen, p.now, p.mail), passes[1..]);
        assert Tiers(row, passes) == [sent.value] + rest;
        assert forall j :: 0 <= j < |rest| ==> rest[j] in rest;
      }
    }
  }

  /** The tiers still below the one recorded. */
  function Room(warned: nat): nat {
    if warned == 0 || warned > 30 then 3 else if warned > 14 then 2 else if warned > 7 then 1 else 0
  }

  lemma {:induction false} AtMostThree(row: JobRow, passes: seq<Pass>)
    ensures |Tiers(row, passes)| <= Room(row.warned) <= 3
    decreases |passes|
  {
    if passes == [] {
    } else {
      var seen := row.(issued := passes[0].issued);
      AtMostThree(Warn(seen, passes[0].now, passes[0].mail), passes[1..]);
    }
  }

  // ------------------------------------------------- which schedules reach every tier

  /** Passes over an issued job with working mail: the clock does not run back, no
      two passes are more than `gap` apart, the first comes at least 30 days before
      expiry and the last within the closest tier or later. */
  ghost predicate Schedule(expiresAt: real, passes: seq<Pass>, gap: real) {
    && passes != []
    && (forall i :: 0 <= i < |passes| ==> passes[i].issued && passes[i].mail.Delivered?)
    && (forall i :: 0 <= i < |passes| - 1 ==> 0.0 <= passes[i + 1].now - passes[i].now <= gap)
    && passes[0].now <= expiresAt - HORIZON
    && passes[|passes| - 1].now > expiresAt - EIGHT_DAYS
  }

  /** The tier recorded once a pass has run with this much time left. */
  function Recorded(left: real): nat {
    if left > HORIZON then 0 else if left >= FIFTEEN_DAYS then 30 else if left >= EIGHT_DAYS then 14 else 7
  }

  function StillToSend(warned: nat): seq<nat> {
    if warned == 0 then [30, 14, 7] else if warned == 30 then [14, 7] else if warned == 14 then [7] else []
  }

  lemma LevelByTime(expiresAt: real, now: real)
    requires InWindow(Some(expiresAt), now)
    ensures Level(DaysLeft(expiresAt, now)) == Some(Recorded(expiresAt - now))
  {
    var left := expiresAt - now;
    assert left / 86400.0 * 86400.0 == left;
  }

  lemma {:induction false} RestSent(expiresAt: real, warned: nat, before: real, passes: seq<Pass>)
    requires warned == Recorded(expiresAt - before)
    requires forall i :: 0 <= i < |passes| ==> passes[i].issued && passes[i].mail.Delivered?
    requires passes != [] ==> 0.0 <= passes[0].now - before <= SEVEN_DAYS
    requires forall i :: 0 <= i < |passes| - 1 ==> 0.0 <= passes[i + 1].now - passes[i].now <= SEVEN_DAYS
    requires (if passes == [] then before else passes[|passes| - 1].now) > expiresAt - EIGHT_DAYS
    ensures Tiers(JobRow(true, Some(expiresAt), warned), passes) == StillToSend(warned)
    decreases |passes|
  {
    if passes == [] {
    } else {
      var p := passes[0];
      var row := JobRow(true, Some(expiresAt), warned);
      if InWindow(Some(expiresAt), p.now) { LevelByTime(expiresAt, p.now); }
      var next := Warn(row, p.now, p.mail);
      assert next.warned == Recorded(expiresAt - p.now);
      RestSent(expiresAt, next.warned, p.now, passes[1..]);
    }
  }

  /** With passes at most 7 days apart every tier is sent, once each, in order. */
  lemma EveryTierSent(expiresAt: real, passes: seq<Pass>, gap: real)
    requires Schedule(expiresAt, passes, gap) && gap <= SEVEN_DAYS
    ensures Tiers(JobRow(true, Some(expiresAt), 0), passes) == [30, 14, 7]
  {
    var p := passes[0];
    var row := JobRow(true, Some(expiresAt), 0);
    if InWindow(Some(expiresAt), p.now) { LevelByTime(expiresAt, p.now); }
    RestSent(expiresAt, Warn(row, p.now, p.mail).warned, p.now, passes[1..]);
  }

  function PassAt(expiresAt: real, left: real): Pass {
    Pass(expiresAt - left, true, Delivered(false))
  }

  /** A schedule that skips the middle tier: 30, 23, 16 and 15 days before expiry,
      then less than 8. */
  function SkippingSchedule(expiresAt: real, gap: real): seq<Pass> {
    [PassAt(expiresAt, HORIZON), PassAt(expiresAt, 1987200.0), PassAt(expiresAt, 1382400.0),
     PassAt(expiresAt, FIFTEEN_DAYS),
     PassAt(expiresAt, if gap < EIGHT_DAYS then FIFTEEN_DAYS - gap else SEVEN_DAYS)]
  }

  lemma SkipsMiddleTier(expiresAt: real, gap: real)
    requires gap > SEVEN_DAYS
    ensures Schedule(expiresAt, SkippingSchedule(expiresAt, gap), gap)
    ensures Tiers(JobRow(true, Some(expiresAt), 0), SkippingSchedule(expiresAt, gap)) == [30, 7]
  {
    var s := SkippingSchedule(expiresAt, gap);
    var at30, at7 := JobRow(true, Some(expiresAt), 30), JobRow(true, Some(expiresAt), 7);
    forall i | 0 <= i < 5 ensures InWindow(Some(expiresAt), s[i].now) {}
    LevelByTime(expiresAt, s[0].now);
    LevelByTime(expiresAt, s[1].now);
    LevelByTime(expiresAt, s[2].now);
    LevelByTime(expiresAt, s[3].now);
    LevelByTime(expiresAt, s[4].now);
    assert Tiers(at7, s[5..]) == [];
    assert Tiers(at30, s[4..]) == [7];
    assert s[3..][1..] == s[4..];
    assert Tiers(at30, s[3..]) == [7];
    assert s[2..][1..] == s[3..];
    assert Tiers(at30, s[2..]) == [7];
    assert s[1..][1..] == s[2..];
    assert Tiers(at30, s[1..]) == [7];
  }

  /** Seven days is the longest gap that reaches every tier whatever the phase. */
  lemma SevenDaysIsTheLimit(gap: real)
    ensures gap <= SEVEN_DAYS <==>
      forall expiresAt, passes :: Schedule(expiresAt, passes, gap)
        ==> Tiers(JobRow(true, Some(expiresAt), 0), passes) == [30, 14, 7]
  {
    if gap <= SEVEN_DAYS {
      forall expiresAt, passes | Schedule(expiresAt, passes, gap)
        ensures Tiers(JobRow(true, Some(expiresAt), 0), passes) == [30, 14, 7]
      {
        EveryTierSent(expiresAt, passes, gap);
      }
    } else {
      SkipsMiddleTier(0.0, gap);
      assert [30, 7] != [30, 14, 7];
    }
  }

  // ---------------------------------------------------------------- passes that overlap

  /** A pass reads the row, sends the mail, and records the tier; steps of other passes
      may come between the reading and the recording. */
  datatype Turn = Read(who: nat, pass: Pass) | Write(who: nat)

  /** The row, the tiers mailed and still to be recorded, and the mails so far. */
  datatype Mix = Mix(row: JobRow, unwritten: map<nat, nat>, mails: nat)

  function AfterTurn(m: Mix, t: Turn): Mix {
    match t
    case Read(i, p) =>
      var sent := SentTier(m.row.(issued := p.issued), p.now, p.mail);
      if i !in m.unwritten && sent.Some?
      then m.(unwritten := m.unwritten[i := sent.value], mails := m.mails + 1) else m
    case Write(i) =>
      if i in m.unwritten
      then m.(row := m.row.(warned := m.unwritten[i]), unwritten := m.unwritten - {i}) else m
  }

  function Mixed(row: JobRow, turns: seq<Turn>): Mix {
    if turns == [] then Mix(row, map[], 0) else AfterTurn(Mixed(row, turns[..|turns| - 1]), turns[|turns| - 1])
  }

  /** A tier that leaves less room than there was. */
  predicate Narrows(tier: nat, row: JobRow) {
    tier != 0 && Room(tier) < Room(row.warned)
  }

  ghost predicate MixInv(m: Mix, row: JobRow) {
    && (forall i :: i in m.unwritten ==> Narrows(m.unwritten[i], row))
    && (m.row.warned == row.warned || Narrows(m.row.warned, row))
    && (m.mails > 0 ==> m.unwritten != map[] || Narrows(m.row.warned, row))
  }

  lemma {:induction false} MixedKeeps(row: JobRow, turns: seq<Turn>)
    ensures MixInv(Mixed(row, turns), row)
  {
    if turns == [] {
    } else {
      MixedKeeps(row, turns[..|turns| - 1]);
      var before, t := Mixed(row, turns[..|turns| - 1]), turns[|turns| - 1];
      if t.Read? && AfterTurn(before, t) != before { assert t.who in AfterTurn(before, t).unwritten; }
    }
  }

  /** The mails of a mixture of passes and of passes after it. */
  function OverlapMails(row: JobRow, turns: seq<Turn>, later: seq<Pass>): nat {
    Mixed(row, turns).mails + |Tiers(Mixed(row, turns).row, later)|
  }

  /** However the steps of passes mix, n mails in the mixture exceed the bound of three
      by at most n - 1. */
  lemma OverlapCost(row: JobRow, turns: seq<Turn>, later: seq<Pass>)
    requires Mixed(row, turns).unwritten == map[]
    ensures OverlapMails(row, turns, later)
         <= Room(row.warned) + if Mixed(row, turns).mails == 0 then 0 else Mixed(row, turns).mails - 1
  {
    MixedKeeps(row, turns);
    AtMostThree(Mixed(row, turns).row, later);
  }

  function ReadAll(n: nat, p: Pass): seq<Turn> {
    seq(n, i requires 0 <= i < n => Read(i, p))
  }

  function WriteAll(n: nat): seq<Turn> {
    seq(n, i requires 0 <= i < n => Write(i))
  }

  predicate From(k: nat, i: nat) {
    k <= i
  }

  /** The passes from the k-th on have yet to record their tier. */
  function Waiting(k: nat, n: nat, tier: nat): map<nat, nat> {
    map i: nat | i < n && From(k, i) :: tier
  }

  lemma {:induction false} AllRead(row: JobRow, n: nat, p: Pass, tier: nat)
    requires SentTier(row.(issued := p.issued), p.now, p.mail) == Some(tier)
    ensures Mixed(row, ReadAll(n, p)) == Mix(row, Waiting(0, n, tier), n)
  {
    if n == 0 {
    } else {
      assert ReadAll(n, p)[..n - 1] == ReadAll(n - 1, p);
      AllRead(row, n - 1, p, tier);
    }
  }

  lemma {:induction false} AllWritten(row: JobRow, n: nat, k: nat, p: Pass, tier: nat)
    requires k <= n && SentTier(row.(issued := p.issued), p.now, p.mail) == Some(tier)
    ensures Mixed(row, ReadAll(n, p) + WriteAll(k))
         == Mix(if k == 0 then row else row.(warned := tier), Waiting(k, n, tier), n)
  {
    var turns := ReadAll(n, p) + WriteAll(k);
    if k == 0 {
      assert turns == ReadAll(n, p);
      AllRead(row, n, p, tier);
    } else {
      assert turns[..|turns| - 1] == ReadAll(n, p) + WriteAll(k - 1);
      AllWritten(row, n, k - 1, p, tier);
    }
  }

  /** n passes at once send n mails of the first tier, and the other two tiers follow. */
  lemma OverlapCostReached(expiresAt: real, n: nat)
    requires n > 0
    ensures var row, p := JobRow(true, Some(expiresAt), 0), PassAt(expiresAt, HORIZON);
      var turns, later := ReadAll(n, p) + WriteAll(n), [PassAt(expiresAt, EIGHT_DAYS), PassAt(expiresAt, SEVEN_DAYS)];
      && Mixed(row, turns).unwritten == map[] && Mixed(row, turns).mails == n
      && OverlapMails(row, turns, later) == 3 + n - 1
  {
    var row, p := JobRow(true, Some(expiresAt), 0), PassAt(expiresAt, HORIZON);
    var p14, p7 := PassAt(expiresAt, EIGHT_DAYS), PassAt(expiresAt, SEVEN_DAYS);
    LevelByTime(expiresAt, p.now);
    LevelByTime(expiresAt, p14.now);
    LevelByTime(expiresAt, p7.now);
    AllWritten(row, n, n, p, 30);
    assert Tiers(row.(warned := 7), [p14, p7][1..][1..]) == [];
    assert Tiers(row.(warned := 14), [p14, p7][1..]) == [7];
    assert Tiers(row.(warned := 30), [p14, p7]) == [14, 7];
  }

  /** However n mails of one job's passes mix, and whatever passes follow, three are
      sent at most. */
  ghost predicate ThreeSurvives(row: JobRow, n: nat) {
    forall turns, later :: Mixed(row, turns).unwritten == map[] && Mixed(row, turns).mails == n
      ==> OverlapMails(row, turns, later) <= 3
  }

  /** The bound of three mails survives n mails of mixed passes for a job not yet warned
      if and only if there is no overlap, that is n <= 1. */
  lemma OverlapBound(expiresAt: real, n: nat)
    ensures ThreeSurvives(JobRow(true, Some(expiresAt), 0), n) <==> n <= 1
  {
    var row := JobRow(true, Some(expiresAt), 0);
    if n <= 1 {
      forall turns, later | Mixed(row, turns).unwritten == map[] && Mixed(row, turns).mails == n
        ensures OverlapMails(row, turns, later) <= 3
      {
        OverlapCost(row, turns, later);
      }
    } else {
      OverlapCostReached(expiresAt, n);
    }
  }
}
