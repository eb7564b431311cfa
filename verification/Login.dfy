/** Password login and its lockout (auth_login in backend/routes_auth.py): how many
    wrong passwords one account takes in a stretch of time. */
module Login {

  const THRESHOLD := 5
  const LOCKOUT := 900.0

  datatype User = User(hash: string, pending: bool, active: bool, attempts: nat, lockedUntil: real)

  datatype Outcome = CacOnly | Incomplete | Unknown | Locked | AwaitingApproval | Disabled | BadPassword | LoggedIn

  /** What one attempt on a known account comes to. */
  function Verdict(u: User, now: real, good: bool): Outcome {
    if u.hash == "" then Unknown
    else if u.lockedUntil > now then Locked
    else if u.pending then AwaitingApproval
    else if !u.active then Disabled
    else if good then LoggedIn
    else BadPassword
  }

  function AfterBad(u: User, now: real): User {
    u.(attempts := u.attempts + 1, lockedUntil := if u.attempts + 1 >= THRESHOLD then now + LOCKOUT else 0.0)
  }

  function AfterTry(u: User, now: real, good: bool): User {
    match Verdict(u, now, good)
    case BadPassword => AfterBad(u, now)
    case LoggedIn => u.(attempts := 0, lockedUntil := 0.0)
    case _ => u
  }

  class Accounts {
    var users: map<string, User>

    constructor ()
      ensures users == map[]
    {
      users := map[];
    }

    /** A login by (stripped) username and password. */
    method AuthLogin(username: string, password: string, mtls: bool, now: real, verify: (string, string) -> bool)
      returns (r: Outcome)
      modifies this
      ensures mtls || username == "" || password == "" ==> users == old(users) && r in {CacOnly, Incomplete}
      ensures !mtls && username != "" && password != "" && username !in old(users)
              ==> users == old(users) && r == Unknown
      ensures !mtls && username != "" && password != "" && username in old(users)
              ==> var u := old(users)[username];
                  var good := verify(password, u.hash);
                  r == Verdict(u, now, good) && users == old(users)[username := AfterTry(u, now, good)]
      ensures r.CacOnly? <==> mtls
      ensures r.Incomplete? <==> !mtls && (username == "" || password == "")
      ensures r.Unknown? <==>
        !mtls && username != "" && password != "" && (username !in old(users) || old(users)[username].hash == "")
      ensures r in {Locked, AwaitingApproval, Disabled, BadPassword, LoggedIn} ==> username in old(users)
      ensures r.Locked? ==> old(users)[username].lockedUntil > now
      ensures r.AwaitingApproval? ==> old(users)[username].lockedUntil <= now && old(users)[username].pending
      ensures r.Disabled? ==>
        var u := old(users)[username]; u.lockedUntil <= now && !u.pending && !u.active
      ensures r.BadPassword? || r.LoggedIn? ==>
        var u := old(users)[username]; u.lockedUntil <= now && !u.pending && u.active
      ensures r.BadPassword? ==>
        var u := old(users)[username];
        !verify(password, u.hash)
        && users == old(users)[username := u.(attempts := u.attempts + 1,
                                              lockedUntil := if u.attempts + 1 >= 5 then now + 900.0 else 0.0)]
      ensures r.LoggedIn? ==>
        verify(password, old(users)[username].hash)
        && users == old(users)[username := old(users)[username].(attempts := 0, lockedUntil := 0.0)]
      ensures !r.BadPassword? && !r.LoggedIn? ==> users == old(users)
      ensures !mtls && username != "" && password != "" && username in old(users)
              ==> var u := old(users)[username];
                  r.LoggedIn? <==> u.hash != "" && u.lockedUntil <= now && !u.pending && u.active
                                   && verify(password, u.hash)
    {
      if mtls { return CacOnly; }
      if username == "" || password == "" { return Incomplete; }
      if username !in users || users[username].hash == "" { return Unknown; }
      var user := users[username];
      if user.lockedUntil > now { return Locked; }
      if user.pending { return AwaitingApproval; }
      if !user.active { return Disabled; }
      if !verify(password, user.hash) {
        var attempts := user.attempts + 1;
        var lockUntil := if attempts >= THRESHOLD then now + LOCKOUT else 0.0;
        users := users[username := user.(attempts := attempts, lockedUntil := lockUntil)];
        return BadPassword;
      }
      users := users[username := user.(attempts := 0, lockedUntil := 0.0)];
      r := LoggedIn;
    }

    /** An administrator sets a password, for any known account that has a username: it
        also lifts a lockout. */
    method AdminSetPassword(username: string, hash: string) returns (ok: bool)
      requires hash != ""
      modifies this
      ensures ok <==> username != "" && username in old(users)
      ensures users == if ok then old(users)[username := After(old(users)[username], SetPassword(hash))] else old(users)
      ensures ok ==> users[username].attempts == 0 && users[username].lockedUntil == 0.0 && users[username].hash == hash
      ensures ok ==> users[username].pending == old(users)[username].pending
                     && users[username].active == old(users)[username].active
    {
      if username == "" || username !in users { return false; }
      users := users[username := users[username].(hash := hash, attempts := 0, lockedUntil := 0.0)];
      ok := true;
    }
  }

  // --------------------------------------------------------------- one account over time

  /** What happens to one account: attempts, and changes by an administrator. */
  datatype Event =
    | Try(now: real, good: bool)
    | Edit(pending: bool, active: bool)
    | SetPassword(hash: string)

  function After(u: User, e: Event): User {
    match e
    case Try(now, good) => AfterTry(u, now, good)
    case Edit(pending, active) => u.(pending := pending, active := active)
    case SetPassword(hash) => u.(hash := hash, attempts := 0, lockedUntil := 0.0)
  }

  predicate Guess(u: User, e: Event) {
    e.Try? && Verdict(u, e.now, e.good).BadPassword?
  }

  /** The wrong passwords evaluated in a run. */
  function Guesses(u: User, run: seq<Event>): nat
    decreases |run|
  {
    if run == [] then 0 else (if Guess(u, run[0]) then 1 else 0) + Guesses(After(u, run[0]), run[1..])
  }

  /** The attempts come in order between the two times, none succeeds, and the
      password is not reset. */
  predicate Stretch(u: User, run: seq<Event>, from: real, until: real)
    decreases |run|
  {
    run == [] ||
    match run[0]
    case Try(now, good) =>
      from <= now <= until && !Verdict(u, now, good).LoggedIn? && Stretch(AfterTry(u, now, good), run[1..], now, until)
    case Edit(_, _) => Stretch(After(u, run[0]), run[1..], from, until)
    case SetPassword(_) => false
  }

  /** The lockout periods begun in a stretch of this length, past the first. */
  function Periods(length: real): int {
    (length / 900.0).Floor
  }

  function FreeTries(attempts: nat): nat {
    if attempts < THRESHOLD - 1 then THRESHOLD - 1 - attempts else 0
  }

  /** The most wrong passwords a stretch can hold: the free tries, and one for each
      lockout period. */
  function LockoutLimit(u: User, from: real, until: real): int {
    FreeTries(u.attempts) + 1 + Periods(until - from)
  }

  /** The wrong passwords still possible. */
  function Budget(u: User, from: real, until: real): int {
    var start := if u.lockedUntil > from then u.lockedUntil else from;
    if start > until then 0 else FreeTries(u.attempts) + 1 + Periods(until - start)
  }

  lemma PeriodsGrow(a: real, b: real)
    requires a <= b
    ensures Periods(a) <= Periods(b)
    ensures Periods(b + 900.0) == Periods(b) + 1
    ensures 0.0 <= a ==> 0 <= Periods(a)
  {
    assert (b + 900.0) / 900.0 == b / 900.0 + 1.0;
    assert a / 900.0 <= b / 900.0;
  }

  lemma BudgetSpent(u: User, from: real, now: real, until: real, good: bool)
    requires from <= now <= until && !Verdict(u, now, good).LoggedIn?
    ensures 0 <= Budget(AfterTry(u, now, good), now, until)
    ensures Budget(AfterTry(u, now, good), now, until)
         <= Budget(u, from, until) - if Verdict(u, now, good).BadPassword? then 1 else 0
  {
    var before := if u.lockedUntil > from then u.lockedUntil else from;
    var next := AfterTry(u, now, good);
    var start := if next.lockedUntil > now then next.lockedUntil else now;
    if start <= until { PeriodsGrow(0.0, until - start); }
    if Verdict(u, now, good).BadPassword? {
      PeriodsGrow(until - now, until - before);
      PeriodsGrow(0.0, until - now);
      if start <= until {
        PeriodsGrow(until - start, until - now);
        PeriodsGrow(until - now - 900.0, until - now - 900.0);
      }
    } else if start <= until {
      PeriodsGrow(until - start, until - before);
    }
  }

  lemma {:induction false} GuessesWithinBudget(u: User, run: seq<Event>, from: real, until: real)
    requires Stretch(u, run, from, until) && from <= until
    ensures Guesses(u, run) <= Budget(u, from, until)
    decreases |run|
  {
    if run == [] {
      var start := if u.lockedUntil > from then u.lockedUntil else from;
      if start <= until { PeriodsGrow(0.0, until - start); }
    } else {
      match run[0]
      case Try(now, good) =>
        BudgetSpent(u, from, now, until, good);
        GuessesWithinBudget(AfterTry(u, now, good), run[1..], now, until);
      case Edit(_, _) =>
        GuessesWithinBudget(After(u, run[0]), run[1..], from, until);
    }
  }

  /** In any stretch of T seconds without a success or a reset, an account takes at
      most 5 + floor(T / 900) wrong passwords, and fewer if its counter had started:
      max(1, 5 - attempts) + floor(T / 900). */
  lemma LockoutBound(u: User, run: seq<Event>, from: real, until: real)
    requires Stretch(u, run, from, until) && from <= until
    ensures Guesses(u, run) <= LockoutLimit(u, from, until) <= 5 + Periods(until - from)
  {
    GuessesWithinBudget(u, run, from, until);
    PeriodsGrow(0.0, until - from);
    if u.lockedUntil > from && u.lockedUntil <= until { PeriodsGrow(until - u.lockedUntil, until - from); }
  }

  /** The fastest guesser: every free try at once, then one for each lockout. */
  function Fastest(attempts: nat, now: real, until: real): seq<Event>
    requires now <= until
    decreases FreeTries(attempts), Periods(until - now)
  {
    PeriodsGrow(0.0, until - now);
    if attempts < THRESHOLD - 1 then [Try(now, false)] + Fastest(attempts + 1, now, until)
    else if now + LOCKOUT <= until then
      PeriodsGrow(until - now - 900.0, until - now - 900.0);
      PeriodsGrow(0.0, until - now - 900.0);
      [Try(now, false)] + Fastest(attempts + 1, now + LOCKOUT, until)
    else [Try(now, false)]
  }

  /** An active account with a password that is not locked at this time. */
  predicate Guessable(u: User, from: real) {
    u.hash != "" && u.active && !u.pending && u.lockedUntil <= from && 0.0 <= from
  }

  /** The bound is reached by any active account that is not locked at the start. */
  lemma {:induction false} BoundReached(u: User, from: real, until: real)
    requires from <= until && Guessable(u, from)
    ensures Stretch(u, Fastest(u.attempts, from, until), from, until)
    ensures Guesses(u, Fastest(u.attempts, from, until)) == LockoutLimit(u, from, until)
    decreases FreeTries(u.attempts), Periods(until - from)
  {
    var run := Fastest(u.attempts, from, until);
    var next := AfterBad(u, from);
    PeriodsGrow(0.0, until - from);
    if u.attempts < THRESHOLD - 1 {
      BoundReached(next, from, until);
    } else if from + LOCKOUT <= until {
      PeriodsGrow(until - from - 900.0, until - from - 900.0);
      PeriodsGrow(0.0, until - from - 900.0);
      BoundReached(next, from + LOCKOUT, until);
      StretchLater(next, run[1..], from, from + LOCKOUT, until);
    } else {
      PeriodsGrow(until - from, until - from);
      assert run[1..] == [];
    }
  }

  lemma {:induction false} StretchLater(u: User, run: seq<Event>, from: real, later: real, until: real)
    requires Stretch(u, run, later, until) && from <= later
    ensures Stretch(u, run, from, until)
    decreases |run|
  {
    if run == [] || !run[0].Edit? {
    } else {
      StretchLater(After(u, run[0]), run[1..], from, later, until);
    }
  }

  // ----------------------------------------------------------------- attempts that overlap

  /** An attempt with a wrong password reads the account, checks the password, and writes
      the counter it read plus one; steps of other attempts may come in between. */
  datatype Turn = Read(who: nat, now: real) | Write(who: nat)

  /** What an attempt read, and when it began. */
  datatype Seen = Seen(user: User, now: real)

  /** The account, the attempts evaluated and still to be written, how many were
      evaluated, and the time of the last to begin. */
  datatype Mix = Mix(user: User, unwritten: map<nat, Seen>, guesses: nat, latest: real)

  function AfterTurn(m: Mix, t: Turn): Mix {
    match t
    case Read(i, now) =>
      if i !in m.unwritten && Verdict(m.user, now, false).BadPassword?
      then Mix(m.user, m.unwritten[i := Seen(m.user, now)], m.guesses + 1, now) else m.(latest := now)
    case Write(i) =>
      if i in m.unwritten then
        var wrote := AfterBad(m.unwritten[i].user, m.unwritten[i].now);
        m.(user := m.user.(attempts := wrote.attempts, lockedUntil := wrote.lockedUntil),
           unwritten := m.unwritten - {i})
      else m
  }

  function Mixed(u: User, turns: seq<Turn>, from: real): Mix {
    if turns == [] then Mix(u, map[], 0, from)
    else AfterTurn(Mixed(u, turns[..|turns| - 1], from), turns[|turns| - 1])
  }

  /** The attempts begin in order between the two times. */
  predicate InOrder(u: User, turns: seq<Turn>, from: real, until: real) {
    turns == []
    || (InOrder(u, turns[..|turns| - 1], from, until)
        && (turns[|turns| - 1].Read? ==>
              Mixed(u, turns[..|turns| - 1], from).latest <= turns[|turns| - 1].now <= until))
  }

  /** An attempt that began by now has written the account. */
  predicate WrittenAfter(v: User, u: User, from: real, latest: real) {
    && v.attempts > u.attempts
    && if v.attempts < THRESHOLD then v.lockedUntil == 0.0 else from + LOCKOUT <= v.lockedUntil <= latest + LOCKOUT
  }

  predicate StartOrWritten(v: User, u: User, from: real, latest: real) {
    (v.attempts == u.attempts && v.lockedUntil == u.lockedUntil) || WrittenAfter(v, u, from, latest)
  }

  ghost predicate MixInv(m: Mix, u: User, from: real) {
    && from <= m.latest && StartOrWritten(m.user, u, from, m.latest)
    && (forall i :: i in m.unwritten ==>
          from <= m.unwritten[i].now <= m.latest && m.unwritten[i].user.attempts >= u.attempts)
    && (m.guesses > 0 ==> m.unwritten != map[] || WrittenAfter(m.user, u, from, m.latest))
  }

  lemma TurnKeeps(m: Mix, t: Turn, u: User, from: real)
    requires MixInv(m, u, from) && (t.Read? ==> m.latest <= t.now)
    ensures MixInv(AfterTurn(m, t), u, from)
  {
    var after := AfterTurn(m, t);
    match t
    case Read(i, now) =>
      if after.unwritten != m.unwritten { assert i in after.unwritten; }
    case Write(i) =>
      if i in m.unwritten { assert WrittenAfter(after.user, u, from, after.latest); }
  }

  lemma {:induction false} MixedKeeps(u: User, turns: seq<Turn>, from: real, until: real)
    requires from <= until && InOrder(u, turns, from, until)
    ensures MixInv(Mixed(u, turns, from), u, from) && Mixed(u, turns, from).latest <= until
  {
    if turns == [] {
    } else {
      MixedKeeps(u, turns[..|turns| - 1], from, until);
      TurnKeeps(Mixed(u, turns[..|turns| - 1], from), turns[|turns| - 1], u, from);
    }
  }

  lemma UnlockedBudget(u: User, from: real, until: real)
    requires from <= until
    ensures Budget(u, from, until) <= LockoutLimit(u, from, until)
  {
    PeriodsGrow(0.0, until - from);
    if from < u.lockedUntil <= until { PeriodsGrow(until - u.lockedUntil, until - from); }
  }

  /** A write uses up at least one of the tries the stretch allowed. */
  lemma BudgetWritten(v: User, u: User, from: real, latest: real, until: real)
    requires WrittenAfter(v, u, from, latest) && from <= latest <= until
    ensures Budget(v, latest, until) <= LockoutLimit(u, from, until) - 1
  {
    var start := if v.lockedUntil > latest then v.lockedUntil else latest;
    PeriodsGrow(0.0, until - from);
    if start > until {
    } else if v.attempts < THRESHOLD {
      PeriodsGrow(until - start, until - from);
    } else {
      PeriodsGrow(until - start, until - from - 900.0);
      PeriodsGrow(until - from - 900.0, until - from - 900.0);
    }
  }

  /** The wrong passwords of a mixture and of a run after it. */
  function OverlapGuesses(u: User, turns: seq<Turn>, run: seq<Event>, from: real): nat {
    Mixed(u, turns, from).guesses + Guesses(Mixed(u, turns, from).user, run)
  }

  /** Every attempt of the mixture has been written when the run begins. */
  ghost predicate OverlapStretch(u: User, turns: seq<Turn>, run: seq<Event>, from: real, until: real) {
    && InOrder(u, turns, from, until) && Mixed(u, turns, from).unwritten == map[]
    && Stretch(Mixed(u, turns, from).user, run, Mixed(u, turns, from).latest, until)
  }

  /** However the reads and writes of n evaluated attempts mix, they exceed the bound by
      at most n - 1. */
  lemma OverlapCost(u: User, turns: seq<Turn>, run: seq<Event>, from: real, until: real)
    requires from <= until && OverlapStretch(u, turns, run, from, until)
    ensures var n := Mixed(u, turns, from).guesses;
            OverlapGuesses(u, turns, run, from) <= LockoutLimit(u, from, until) + if n == 0 then 0 else n - 1
  {
    var m := Mixed(u, turns, from);
    MixedKeeps(u, turns, from, until);
    GuessesWithinBudget(m.user, run, m.latest, until);
    if WrittenAfter(m.user, u, from, m.latest) {
      BudgetWritten(m.user, u, from, m.latest, until);
      PeriodsGrow(0.0, until - from);
    } else {
      UnlockedBudget(m.user, m.latest, until);
      PeriodsGrow(until - m.latest, until - from);
    }
  }

  function ReadAll(n: nat, now: real): seq<Turn> {
    seq(n, i requires 0 <= i < n => Read(i, now))
  }

  function WriteAll(n: nat): seq<Turn> {
    seq(n, i requires 0 <= i < n => Write(i))
  }

  predicate From(k: nat, i: nat) {
    k <= i
  }

  /** The attempts from the k-th on have yet to be written. */
  function Waiting(k: nat, n: nat, seen: Seen): map<nat, Seen> {
    map i: nat | i < n && From(k, i) :: seen
  }

  lemma {:induction false} AllRead(u: User, n: nat, now: real, until: real)
    requires now <= until && Verdict(u, now, false).BadPassword?
    ensures InOrder(u, ReadAll(n, now), now, until)
    ensures Mixed(u, ReadAll(n, now), now) == Mix(u, Waiting(0, n, Seen(u, now)), n, now)
  {
    if n == 0 {
    } else {
      assert ReadAll(n, now)[..n - 1] == ReadAll(n - 1, now);
      AllRead(u, n - 1, now, until);
    }
  }

  /** Attempts that all read before any writes leave the account as one of them does. */
  lemma {:induction false} OverlapCountsOnce(u: User, n: nat, k: nat, now: real, until: real)
    requires k <= n && now <= until && Verdict(u, now, false).BadPassword?
    ensures InOrder(u, ReadAll(n, now) + WriteAll(k), now, until)
    ensures Mixed(u, ReadAll(n, now) + WriteAll(k), now)
         == Mix(if k == 0 then u else AfterBad(u, now), Waiting(k, n, Seen(u, now)), n, now)
  {
    var turns := ReadAll(n, now) + WriteAll(k);
    if k == 0 {
      assert turns == ReadAll(n, now);
      AllRead(u, n, now, until);
    } else {
      assert turns[..|turns| - 1] == ReadAll(n, now) + WriteAll(k - 1);
      OverlapCountsOnce(u, n, k - 1, now, until);
    }
  }

  /** What the fastest guesser does after one wrong attempt. */
  function FastestAfter(attempts: nat, now: real, until: real): seq<Event>
    requires now <= until
  {
    if attempts + 1 < THRESHOLD then Fastest(attempts + 1, now, until)
    else if now + LOCKOUT <= until then Fastest(attempts + 1, now + LOCKOUT, until)
    else []
  }

  /** And n attempts at once, followed by the fastest guesser, exceed it by just that. */
  lemma OverlapCostReached(u: User, n: nat, from: real, until: real)
    requires from <= until && Guessable(u, from) && n > 0
    ensures var turns, run := ReadAll(n, from) + WriteAll(n), FastestAfter(u.attempts, from, until);
      && OverlapStretch(u, turns, run, from, until) && Mixed(u, turns, from).guesses == n
      && OverlapGuesses(u, turns, run, from) == LockoutLimit(u, from, until) + n - 1
  {
    var next, run := AfterBad(u, from), FastestAfter(u.attempts, from, until);
    OverlapCountsOnce(u, n, n, from, until);
    assert Waiting(n, n, Seen(u, from)) == map[];
    if u.attempts + 1 < THRESHOLD {
      BoundReached(next, from, until);
    } else if from + LOCKOUT <= until {
      BoundReached(next, from + LOCKOUT, until);
      StretchLater(next, run, from, from + LOCKOUT, until);
      PeriodsGrow(until - from - 900.0, until - from - 900.0);
    } else {
      PeriodsGrow(0.0, until - from);
      assert (until - from) / 900.0 < 1.0;
    }
  }

  /** However n evaluated attempts mix and whatever follows, the bound holds. */
  ghost predicate BoundSurvives(u: User, n: nat, from: real, until: real) {
    forall turns, run :: OverlapStretch(u, turns, run, from, until) && Mixed(u, turns, from).guesses == n
      ==> OverlapGuesses(u, turns, run, from) <= LockoutLimit(u, from, until)
  }

  /** The lockout bound survives n mixed attempts on an unlocked account if and only if
      there is no overlap, that is n <= 1. */
  lemma OverlapBound(u: User, n: nat, from: real, until: real)
    requires from <= until && Guessable(u, from)
    ensures BoundSurvives(u, n, from, until) <==> n <= 1
  {
    if n <= 1 {
      forall turns, run | OverlapStretch(u, turns, run, from, until) && Mixed(u, turns, from).guesses == n
        ensures OverlapGuesses(u, turns, run, from) <= LockoutLimit(u, from, until)
      {
        OverlapCost(u, turns, run, from, until);
      }
    } else {
      OverlapCostReached(u, n, from, until);
    }
  }
}
