/** Fetches of one job's key that overlap (fetch_for_job in backend/keystore.py): each
    reads the row, reads the key, destroys the vault entry and strikes the row off,
    with steps of the others in between. */
module KeyOverlap {
  import opened Wrappers
  import opened Keystore
  import opened KeyRuns

  /** A fetch in progress, with what it has read. */
  datatype Fetch =
    | Start
    | HasRow(row: Row)
    | HasKey(row: Row, pem: Pem)
    | Destroyed(row: Row, pem: Pem)
    | Ended(result: Option<Pem>)

  /** What the vault and the helper do for one step. */
  datatype Env = Env(vaultUp: bool, readable: bool, worked: bool)

  /** The row and the key have been read. */
  function AfterRead(s: Store, row: Row, env: Env): Fetch {
    match row.vaultPath
    case Some(v) =>
      if !env.vaultUp || v !in s.vault then Ended(None)
      else if s.vault[v] != "" && row.storage == ReturnOnce then HasKey(row, s.vault[v])
      else Ended(Some(s.vault[v]))
    case None =>
      if row.hasLocalKey && row.localKeyName.Some? && row.localKeyName.value != "" && env.readable
         && row.localKeyName.value in s.host
      then Ended(Some(s.host[row.localKeyName.value])) else Ended(None)
  }

  function Struck(row: Row): Row {
    row.(vaultPath := None, hasLocalKey := false, storage := Returned)
  }

  /** One step of a fetch: the store and the fetch after it. */
  function Step(s: Store, j: JobId, f: Fetch, env: Env): (Store, Fetch) {
    match f
    case Start => (s, if j in s.jobs then HasRow(s.jobs[j]) else Ended(None))
    case HasRow(row) => (s, AfterRead(s, row, env))
    case HasKey(row, pem) =>
      (if row.vaultPath.Some? then Keystore.Destroy(s, row.vaultPath.value, env.worked) else s, Destroyed(row, pem))
    case Destroyed(row, pem) => (SetRow(s, j, Struck(row)), Ended(Some(pem)))
    case Ended(_) => (s, f)
  }

  datatype Act = Act(who: nat, env: Env)

  datatype Sys = Sys(s: Store, fs: seq<Fetch>)

  function Turn(y: Sys, j: JobId, a: Act): Sys {
    if a.who >= |y.fs| then y
    else
      var (s, f) := Step(y.s, j, y.fs[a.who], a.env);
      Sys(s, y.fs[a.who := f])
  }

  function Run(y: Sys, j: JobId, acts: seq<Act>): Sys {
    if acts == [] then y else Turn(Run(y, j, acts[..|acts| - 1]), j, acts[|acts| - 1])
  }

  /** How many of the fetches have returned a key. */
  function Returns(fs: seq<Fetch>): nat {
    if fs == [] then 0
    else Returns(fs[..|fs| - 1]) + if fs[|fs| - 1].Ended? && fs[|fs| - 1].result.Some? then 1 else 0
  }

  /** Four steps without interruption. */
  function Alone(s: Store, j: JobId, env: Env): (Store, Fetch) {
    var (s1, f1) := Step(s, j, Start, env);
    var (s2, f2) := Step(s1, j, f1, env);
    var (s3, f3) := Step(s2, j, f2, env);
    Step(s3, j, f3, env)
  }

  lemma AloneIsFetchSteps(s: Store, j: JobId, env: Env)
    requires j in s.jobs
    ensures var r := FetchSteps(s, j, env.vaultUp, env.readable, env.worked);
            Alone(s, j, env) == (After(s, r.1), Ended(r.0))
  {
  }

  lemma OneTurn(y: Sys, j: JobId, acts: seq<Act>, s: Store, f: Fetch, env: Env)
    requires Run(y, j, acts) == Sys(s, [f])
    ensures Run(y, j, acts + [Act(0, env)]) == Sys(Step(s, j, f, env).0, [Step(s, j, f, env).1])
  {
    assert (acts + [Act(0, env)])[..|acts|] == acts;
  }

  /** A fetch whose steps are not interrupted is the operation of the sequential runs. */
  lemma AloneIsFetch(s: Store, j: JobId, env: Env)
    requires j in s.jobs
    ensures var a, r := Act(0, env), FetchSteps(s, j, env.vaultUp, env.readable, env.worked);
            Run(Sys(s, [Start]), j, [a, a, a, a]) == Sys(After(s, r.1), [Ended(r.0)])
  {
    var y, a := Sys(s, [Start]), Act(0, env);
    var (s1, f1) := Step(s, j, Start, env);
    var (s2, f2) := Step(s1, j, f1, env);
    var (s3, f3) := Step(s2, j, f2, env);
    assert Run(y, j, []) == y;
    OneTurn(y, j, [], s, Start, env);
    OneTurn(y, j, [] + [a], s1, f1, env);
    OneTurn(y, j, [] + [a] + [a], s2, f2, env);
    OneTurn(y, j, [] + [a] + [a] + [a], s3, f3, env);
    assert [] + [a] + [a] + [a] + [a] == [a, a, a, a];
    AloneIsFetchSteps(s, j, env);
  }

  // ------------------------------------------------------------ fetches that come too late

  /** A fetch that has not read the row before it was struck off. */
  predicate TooLate(f: Fetch) {
    f.Start? || f == Ended(None) || (f.HasRow? && f.row.vaultPath.None? && !f.row.hasLocalKey)
  }

  /** Once one fetch has ended and the row is struck off, a fetch that begins returns
      nothing, whatever those still under way do. */
  lemma {:induction false} LateFetchGetsNothing(y: Sys, j: JobId, acts: seq<Act>, i: nat)
    requires HandedOver(y.s, j) && i < |y.fs| && TooLate(y.fs[i])
    ensures HandedOver(Run(y, j, acts).s, j)
    ensures |Run(y, j, acts).fs| == |y.fs| && TooLate(Run(y, j, acts).fs[i])
  {
    if acts == [] {
    } else {
      LateFetchGetsNothing(y, j, acts[..|acts| - 1], i);
    }
  }

  // ------------------------------------------------------------------ fetches all together

  function All(f: Fetch, n: nat): seq<Fetch> {
    seq(n, i => f)
  }

  function Each(n: nat, env: Env): seq<Act> {
    seq(n, i requires 0 <= i < n => Act(i, env))
  }

  lemma {:induction false} RunConcat(y: Sys, j: JobId, a: seq<Act>, b: seq<Act>)
    ensures Run(y, j, a + b) == Run(Run(y, j, a), j, b)
  {
    if b == [] {
      assert a + b == a;
    } else {
      assert (a + b)[..|a + b| - 1] == a + b[..|b| - 1];
      RunConcat(y, j, a, b[..|b| - 1]);
    }
  }

  /** The first k of n fetches have made the same step, which leaves a job row stored
      for one fetch unless it strikes it off. */
  lemma {:induction false} EachSteps(s: Store, j: JobId, f: Fetch, g: Fetch, n: nat, k: nat, env: Env)
    returns (t: Store)
    requires k <= n && (f.Start? || f.HasRow? ==> Step(s, j, f, env) == (s, g))
    requires f.HasKey? ==> g == Destroyed(f.row, f.pem)
    requires f.Destroyed? ==> g == Ended(Some(f.pem))
    requires !f.Ended?
    ensures Run(Sys(s, All(f, n)), j, Each(k, env)) == Sys(t, All(g, k) + All(f, n - k))
    ensures f.Start? || f.HasRow? ==> t == s
  {
    if k == 0 {
      t := s;
      assert All(g, 0) + All(f, n) == All(f, n);
    } else {
      var before := EachSteps(s, j, f, g, n, k - 1, env);
      AllStep(f, g, n, k);
      EachMore(k, env);
      t := Step(before, j, f, env).0;
      assert Step(before, j, f, env).1 == g;
    }
  }

  lemma AllStep(f: Fetch, g: Fetch, n: nat, k: nat)
    requires 0 < k <= n
    ensures var fs := All(g, k - 1) + All(f, n - (k - 1));
            |fs| == n && fs[k - 1] == f && fs[k - 1 := g] == All(g, k) + All(f, n - k)
  {
  }

  lemma EachMore(k: nat, env: Env)
    requires k > 0
    ensures Each(k, env)[..k - 1] == Each(k - 1, env) && Each(k, env)[k - 1] == Act(k - 1, env)
  {
  }

  lemma EachDone(s: Store, j: JobId, f: Fetch, g: Fetch, n: nat, env: Env) returns (t: Store)
    requires f.Start? || f.HasRow? ==> Step(s, j, f, env) == (s, g)
    requires f.HasKey? ==> g == Destroyed(f.row, f.pem)
    requires f.Destroyed? ==> g == Ended(Some(f.pem))
    requires !f.Ended?
    ensures Run(Sys(s, All(f, n)), j, Each(n, env)) == Sys(t, All(g, n))
    ensures f.Start? || f.HasRow? ==> t == s
  {
    t := EachSteps(s, j, f, g, n, n, env);
    assert All(g, n) + All(f, 0) == All(g, n);
  }

  lemma {:induction false} AllReturned(n: nat, pem: Pem)
    ensures Returns(All(Ended(Some(pem)), n)) == n
  {
    if n == 0 {
    } else {
      assert All(Ended(Some(pem)), n)[..n - 1] == All(Ended(Some(pem)), n - 1);
      AllReturned(n - 1, pem);
    }
  }

  /** All fetches take their first step, then all their second, and so on. */
  function InStep(n: nat, env: Env): seq<Act> {
    Each(n, env) + Each(n, env) + Each(n, env) + Each(n, env)
  }

  predicate Fetchable(s: Store, j: JobId) {
    StoredOnce(s, j) && j in s.vault && s.vault[j] != ""
  }

  /** n fetches that all read before any of them writes all return the one-time key,
      even when the vault destroys it at the first request. */
  lemma OverlapReturnsAll(s: Store, j: JobId, n: nat, worked: bool)
    requires Fetchable(s, j)
    ensures Run(Sys(s, All(Start, n)), j, InStep(n, Env(true, true, worked))).fs == All(Ended(Some(s.vault[j])), n)
  {
    var env, each, row, pem := Env(true, true, worked), Each(n, Env(true, true, worked)), s.jobs[j], s.vault[j];
    var s1 := EachDone(s, j, Start, HasRow(row), n, env);
    var s2 := EachDone(s, j, HasRow(row), HasKey(row, pem), n, env);
    var s3 := EachDone(s, j, HasKey(row, pem), Destroyed(row, pem), n, env);
    var s4 := EachDone(s3, j, Destroyed(row, pem), Ended(Some(pem)), n, env);
    RunConcat(Sys(s, All(Start, n)), j, each, each);
    RunConcat(Sys(s, All(Start, n)), j, each + each, each);
    RunConcat(Sys(s, All(Start, n)), j, each + each + each, each);
  }

  /** However the steps of n fetches interleave, at most one returns the key. */
  ghost predicate OnceSurvives(s: Store, j: JobId, n: nat) {
    forall acts :: Returns(Run(Sys(s, All(Start, n)), j, acts).fs) <= 1
  }

  lemma {:induction false} SameNumber(y: Sys, j: JobId, acts: seq<Act>)
    ensures |Run(y, j, acts).fs| == |y.fs|
  {
    if acts == [] {
    } else {
      SameNumber(y, j, acts[..|acts| - 1]);
    }
  }

  lemma {:induction false} ReturnedAtMost(fs: seq<Fetch>)
    ensures Returns(fs) <= |fs|
  {
    if fs == [] {
    } else {
      ReturnedAtMost(fs[..|fs| - 1]);
    }
  }

  /** A key stored for one fetch is returned at most once by n fetches if and only if no
      two of them can overlap, that is n <= 1. */
  lemma OverlapOnce(s: Store, j: JobId, n: nat)
    requires Fetchable(s, j)
    ensures OnceSurvives(s, j, n) <==> n <= 1
  {
    if n <= 1 {
      forall acts ensures Returns(Run(Sys(s, All(Start, n)), j, acts).fs) <= 1 {
        SameNumber(Sys(s, All(Start, n)), j, acts);
        ReturnedAtMost(Run(Sys(s, All(Start, n)), j, acts).fs);
      }
    } else {
      OverlapReturnsAll(s, j, n, true);
      AllReturned(n, s.vault[j]);
    }
  }
}
