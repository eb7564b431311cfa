/** The ACME client of backend/acme_client.py: the transport with its cached
    nonce, the account, the order flow and the challenge solvers. Replies of the
    server, of the zone and of local tools are arbitrary. */
module AcmeClient {
  import opened Wrappers
  import opened AcmeLog
  import Text

  /** An AcmeError with the CA's problem type, or any other exception. */
  datatype Error = Acme(problem: string) | Crash

  datatype Result<+T> = Ok(value: T) | Err(error: Error) {
    predicate RefusedNonce() { Err? && error.Acme? && IsBadNonce(error.problem) }
  }

  const POLL_TRIES := 20
  const CALLS_PER_AUTHORIZATION := 22
  const CALLS_PER_ORDER := 24

  // ------------------------------------------------------- keeping the invariant

  ghost predicate LogInv(log: seq<Event>) {
    NoncesUnspent(log) && KeyIdsGiven(log)
  }

  lemma UnspentLater(log: seq<Event>, later: seq<Event>, nonce: string)
    requires log <= later && NoPostIn(later, |log|, |later|) && Unspent(log, nonce)
    ensures Unspent(later, nonce)
  {
    var i :| 0 <= i < |log| && Gives(log[i], nonce) && NoPostIn(log, i + 1, |log|);
    assert Gives(later[i], nonce);
    assert forall k :: i + 1 <= k < |later| ==> !later[k].Post?;
  }

  lemma AccountKnownLater(log: seq<Event>, later: seq<Event>, kid: Url)
    requires log <= later && AccountKnown(log, kid)
    ensures AccountKnown(later, kid)
  {
    var i :| 0 <= i < |log| && OpensAccount(log[i], kid);
    assert OpensAccount(later[i], kid);
  }

  lemma Assoc<T>(a: seq<T>, b: seq<T>, c: seq<T>)
    ensures (a + b) + c == a + (b + c)
  {
  }

  lemma InvQuiet(log: seq<Event>, later: seq<Event>)
    requires LogInv(log) && log <= later && NoPostIn(later, |log|, |later|)
    ensures LogInv(later)
  {
    forall j | PostAt(later, j)
      ensures PostAt(log, j) && later[..j] == log[..j]
    {
    }
  }

  lemma InvPost(log: seq<Event>, e: Event)
    requires LogInv(log) && e.Post? && Unspent(log, e.nonce)
    requires
      if e.payload.NewAccount? then e.auth == Jwk
      else e.auth.Kid? && e.auth.kid != "" && AccountKnown(log, e.auth.kid)
    ensures LogInv(log + [e])
  {
    var later := log + [e];
    forall j | PostAt(later, j)
      ensures if j < |log| then PostAt(log, j) && later[..j] == log[..j] else later[..j] == log
    {
    }
  }

  lemma SeenValidLater(log: seq<Event>, later: seq<Event>, lo: int, hi: int, hi': int, url: Url)
    requires log <= later && hi <= hi' && SeenValid(log, lo, hi, url)
    ensures SeenValid(later, lo, hi', url)
  {
    var i :| lo <= i < hi && 0 <= i < |log| && Reports(log[i], url, "valid");
    assert Reports(later[i], url, "valid");
  }

  // ------------------------------------------------------------- the environment

  /** The network, the zone or webroot, and the local tools: anything may come
      back. */
  class World {
    var log: seq<Event>

    constructor ()
      ensures log == []
    {
      log := [];
    }

    method FetchDirectory() returns (reply: Reply)
      modifies this
      ensures log == old(log) + [Get(reply)]
    {
      reply := *;
      log := log + [Get(reply)];
    }

    method FetchNonce() returns (reply: Reply)
      modifies this
      ensures log == old(log) + [Head(reply)]
    {
      reply := *;
      log := log + [Head(reply)];
    }

    method SendPost(url: Url, payload: Payload, nonce: string, auth: Auth) returns (reply: Reply)
      modifies this
      ensures log == old(log) + [Post(url, payload, nonce, auth, reply)]
    {
      reply := *;
      log := log + [Post(url, payload, nonce, auth, reply)];
    }

    method PutInPlace(a: Artefact) returns (outcome: Outcome)
      modifies this
      ensures log == old(log) + [Place(a, outcome)]
    {
      outcome := *;
      log := log + [Place(a, outcome)];
    }

    method TakeAway(a: Artefact) returns (outcome: Outcome)
      modifies this
      ensures log == old(log) + [Remove(a, outcome)]
    {
      outcome := *;
      log := log + [Remove(a, outcome)];
    }

    /** An openssl call that works, raises AcmeError, or runs into its timeout. */
    method RunOpenssl() returns (r: Result<()>)
      modifies this
      ensures log == old(log) + [Tool(r.Ok?)]
      ensures !r.RefusedNonce()
    {
      var worked: bool, timedOut: bool := *, *;
      r := if worked then Ok(()) else if timedOut then Err(Crash) else Err(Acme(""));
      log := log + [Tool(worked)];
    }
  }

  // ------------------------------------------------------------------ the solvers

  datatype SolverKind = Dns01 | Http01(webroot: string)

  function ChallengeType(kind: SolverKind): string {
    if kind.Dns01? then "dns-01" else "http-01"
  }

  /** Where a challenge is answered: the TXT record of the domain, or the file
      named by the token. */
  function ArtefactFor(kind: SolverKind, domain: string, token: string, keyAuth: string): Artefact {
    match kind
    case Dns01 => Txt("_acme-challenge." + domain + ".", keyAuth)
    case Http01(webroot) => File(webroot + "/.well-known/acme-challenge/" + token)
  }

  /** What a removal pass over `records` can leave behind in the log: it works
      through them in order and stops short only at an exception that is not the
      one the solver swallows. */
  ghost predicate CleanupTrace(records: seq<Artefact>, pass: seq<(Artefact, Outcome)>) {
    && Targets(pass) <= records
    && (forall k :: 0 <= k < |pass| - 1 ==> !pass[k].1.Died?)
    && (|pass| < |records| ==> pass != [] && pass[|pass| - 1].1.Died?)
  }

  /** Every record had exactly one removal attempt unless an attempt before the
      last record died. */
  lemma CleanupExact(records: seq<Artefact>, pass: seq<(Artefact, Outcome)>)
    requires CleanupTrace(records, pass)
    ensures Targets(pass) == records <==>
            forall k :: 0 <= k < |pass| && pass[k].1.Died? ==> k == |records| - 1
  {
    if |pass| == |records| {
      assert Targets(pass) == records;
    } else {
      assert pass[|pass| - 1].1.Died?;
    }
  }

  /** When nsupdate itself dies on the first of two records, the second is never
      attempted. */
  lemma CleanupCanSkip(a: Artefact, b: Artefact)
    ensures CleanupTrace([a, b], [(a, Died(false))]) && Targets([(a, Died(false))]) != [a, b]
  {
    assert Targets([(a, Died(false))]) == [a] <= [a, b];
  }

  class Solver {
    const world: World
    const kind: SolverKind
    var records: seq<Artefact>

    constructor (world: World, kind: SolverKind)
      ensures this.world == world && this.kind == kind && records == []
    {
      this.world, this.kind, records := world, kind, [];
    }

    method Setup(domain: string, token: string, keyAuth: string) returns (r: Result<()>)
      modifies this, world
      ensures exists o ::
                && world.log == old(world.log) + [Place(ArtefactFor(kind, domain, token, keyAuth), o)]
                && (r.Ok? <==> o.Done?)
                && records == old(records) + if o.Done? then [ArtefactFor(kind, domain, token, keyAuth)] else []
      ensures kind.Dns01? ==> world.log[|old(world.log)|].artefact == Txt("_acme-challenge." + domain + ".", keyAuth)
      ensures kind.Http01? ==>
        world.log[|old(world.log)|].artefact == File(kind.webroot + "/.well-known/acme-challenge/" + token)
      ensures !r.RefusedNonce()
    {
      var a := ArtefactFor(kind, domain, token, keyAuth);
      var o := world.PutInPlace(a);
      if o.Done? {
        records := records + [a];
        r := Ok(());
      } else {
        r := Err(if kind.Dns01? && o.Refused? then Acme("") else Crash);
      }
    }

    /** Removes what was set up, in order. A refused removal is passed over; any
        other exception leaves the loop with the records still listed. */
    method Cleanup() returns (r: Result<()>, ghost run: seq<Event>)
      modifies this, world
      ensures world.log == old(world.log) + run
      ensures forall j :: 0 <= j < |run| ==> run[j].Remove?
      ensures Count(run) == Tally(0, 0, 0, [], Count(run).removals)
      ensures CleanupTrace(old(records), Count(run).removals)
      ensures r.Ok? ==> records == [] && Targets(Count(run).removals) == old(records)
      ensures r.Err? ==> r.error == Crash && records == old(records) && Disturbed(run)
    {
      run := [];
      ghost var pass: seq<(Artefact, Outcome)> := [];
      for i := 0 to |records|
        invariant records == old(records)
        invariant world.log == old(world.log) + run
        invariant forall j :: 0 <= j < |run| ==> run[j].Remove?
        invariant Count(run) == Tally(0, 0, 0, [], pass)
        invariant |pass| == i && Targets(pass) == records[..i]
        invariant forall k :: 0 <= k < i ==> !pass[k].1.Died?
      {
        var o := world.TakeAway(records[i]);
        CountAppend(run, Remove(records[i], o));
        run, pass := run + [Remove(records[i], o)], pass + [(records[i], o)];
        assert Targets(pass) == records[..i + 1];
        if o.Died? {
          assert Failing(run[|run| - 1]);
          return Err(Crash), run;
        }
      }
      records := [];
      r := Ok(());
    }
  }

  // ------------------------------------------------------------------- the client

  /** A CSR and what csr_identifiers makes of it: its names, or an error. */
  datatype Csr = Csr(pem: string, names: Option<seq<string>>)

  /** The course of one issue call: how far it got, the order it created at
      index `at` of the log, and where in the log cleanup began. */
  datatype Course = NoOrder | Ordered(order: Object, at: nat, cleanup: nat)

  /** The leaf and the chain after it, each certificate a block of lines. */
  function SplitChain(pems: seq<string>): (r: Result<(string, string)>)
    ensures r.Ok? <==> pems != []
    ensures r.Ok? ==> r.value.0 + r.value.1 == Text.Unlines(pems) && r.value.0 == pems[0] + "\n"
    ensures !r.RefusedNonce()
  {
    if pems == [] then Err(Acme(""))
    else if |pems| == 1 then Ok((pems[0] + "\n", ""))
    else
      Text.JoinIsUnlines(pems[1..]);
      Ok((pems[0] + "\n", Text.Join(pems[1..], "\n") + "\n"))
  }

  /** What a refused request raises: the problem type the CA names, if it names one. */
  function Rejection(reply: Reply): (r: Result<Reply>)
    requires reply.Answer?
    ensures r.Err? && (r.RefusedNonce() <==>
              reply.body.parsed.Json? && IsBadNonce(reply.body.parsed.obj.problem))
  {
    match reply.body.parsed
    case NotJson => Err(Acme(""))
    case NotObject => Err(Crash)
    case Json(problem) => Err(Acme(problem.problem))
  }

  /** Directory requests still to be made. */
  function Owed(dir: Option<Directory>): nat {
    if dir.None? then 1 else 0
  }

  /** Asking for a nonce: at most the directory and one HEAD. */
  ghost predicate Quiet(run: seq<Event>, owed: nat, left: nat) {
    && (forall j :: 0 <= j < |run| ==> run[j].Get? || run[j].Head?)
    && Count(run) == Tally(Count(run).gets, Count(run).heads, 0, [], [])
    && Count(run).heads <= 1 && Count(run).gets + left <= owed
  }

  /** The last event, when it is a request. */
  ghost function Last(run: seq<Event>): (r: Option<Event>)
    ensures r.Some? ==> r.value.Post?
  {
    if run != [] && run[|run| - 1].Post? then Some(run[|run| - 1]) else None
  }

  ghost predicate OnlyTo(e: Event, url: Url, payload: Payload) {
    e.Get? || e.Head? || e.Tool? || (e.Post? && e.url == url && e.payload == payload)
  }

  /** At most one request, and nothing after it. */
  ghost predicate Exchange(run: seq<Event>, url: Url, payload: Payload, owed: nat, left: nat) {
    && (forall j :: 0 <= j < |run| ==> OnlyTo(run[j], url, payload))
    && (forall j :: 0 <= j < |run| - 1 ==> !run[j].Post?)
    && Count(run) == Tally(Count(run).gets, Count(run).heads, if Last(run).Some? then 1 else 0, [], [])
    && Count(run).heads <= 1 && Count(run).gets + left <= owed
  }

  /** The requests of one signed POST: a second one is sent only when the first
      was refused for its nonce. */
  ghost predicate Burst(run: seq<Event>, url: Url, payload: Payload) {
    && (forall j :: 0 <= j < |run| ==> OnlyTo(run[j], url, payload))
    && (forall j :: 0 <= j < |run| - 1 && run[j].Post? ==> BadNonce(run[j]))
  }

  /** Requests only, within the work `calls` signed POSTs may cause. */
  ghost predicate Traffic(run: seq<Event>, calls: int, owed: nat, left: nat) {
    && Count(run).placed == [] && Count(run).removals == []
    && Effort(run, calls, owed, left)
  }

  ghost predicate Effort(run: seq<Event>, calls: int, owed: nat, left: nat) {
    && Count(run).posts <= 2 * calls && Count(run).heads <= 2 * calls
    && Count(run).gets + left <= owed
  }

  lemma HonoursParts(a: seq<Event>, b: seq<Event>)
    requires HonoursRetry(a + b)
    ensures HonoursRetry(a) && HonoursRetry(b)
  {
    var run := a + b;
    forall i | BadNonceAt(a, i)
      ensures a[i].reply.nonce != ""
      ensures forall j {:trigger PostAt(a, j)} ::
                i < j && PostAt(a, j) && a[j].nonce == a[i].reply.nonce ==> !BadNonce(a[j])
    {
      assert BadNonceAt(run, i);
      forall j | i < j && PostAt(a, j) && a[j].nonce == a[i].reply.nonce ensures !BadNonce(a[j]) {
        assert PostAt(run, j);
      }
    }
    forall i | BadNonceAt(b, i)
      ensures b[i].reply.nonce != ""
      ensures forall j {:trigger PostAt(b, j)} ::
                i < j && PostAt(b, j) && b[j].nonce == b[i].reply.nonce ==> !BadNonce(b[j])
    {
      assert BadNonceAt(run, |a| + i);
      forall j | i < j && PostAt(b, j) && b[j].nonce == b[i].reply.nonce ensures !BadNonce(b[j]) {
        assert PostAt(run, |a| + j);
      }
    }
  }

  lemma TrafficThen(a: seq<Event>, b: seq<Event>, c: int, d: int, owed: nat, mid: nat, left: nat)
    requires Traffic(a, c, owed, mid) && Traffic(b, d, mid, left)
    ensures Traffic(a + b, c + d, owed, left)
    ensures Last(b).Some? ==> Last(a + b) == Last(b)
    ensures HonoursRetry(a + b) ==> HonoursRetry(b)
  {
    CountConcat(a, b);
    if HonoursRetry(a + b) { HonoursParts(a, b); }
  }

  ghost predicate NoFinalize(run: seq<Event>) {
    forall j :: 0 <= j < |run| ==> !IsFinalize(run[j])
  }

  ghost predicate NoRemove(run: seq<Event>) {
    forall j :: 0 <= j < |run| ==> !run[j].Remove?
  }

  ghost predicate NoPlace(run: seq<Event>) {
    forall j :: 0 <= j < |run| ==> !run[j].Place?
  }

  lemma KindsConcat(a: seq<Event>, b: seq<Event>)
    ensures NoFinalize(a + b) <==> NoFinalize(a) && NoFinalize(b)
    ensures NoRemove(a + b) <==> NoRemove(a) && NoRemove(b)
    ensures NoPlace(a + b) <==> NoPlace(a) && NoPlace(b)
  {
    assert forall j :: 0 <= j < |a| ==> (a + b)[j] == a[j];
    assert forall j :: 0 <= j < |b| ==> (a + b)[|a| + j] == b[j];
  }

  /** Requests other than finalize, and set-ups, within the work of `calls`. */
  ghost predicate Work(run: seq<Event>, calls: int, owed: nat, left: nat) {
    && NoFinalize(run) && NoRemove(run) && Count(run).removals == []
    && Effort(run, calls, owed, left)
  }

  lemma TrafficIsWork(run: seq<Event>, payload: Payload, calls: int, owed: nat, left: nat)
    requires Traffic(run, calls, owed, left) && ForPayload(run, payload)
    ensures !payload.FinalizeCsr? ==> Work(run, calls, owed, left)
    ensures NoPlace(run) && NoRemove(run)
    ensures payload != ChallengeReady ==> Unchallenging(run)
  {
  }

  lemma WorkThen(a: seq<Event>, b: seq<Event>, c: int, d: int, owed: nat, mid: nat, left: nat)
    requires Work(a, c, owed, mid) && Work(b, d, mid, left)
    ensures Work(a + b, c + d, owed, left)
    ensures Count(a + b).placed == Count(a).placed + Count(b).placed
    ensures Count(a).placed == [] ==> Count(a + b).placed == Count(b).placed
    ensures HonoursRetry(a + b) ==> HonoursRetry(a) && HonoursRetry(b)
    ensures NoPlace(a) && NoPlace(b) ==> NoPlace(a + b)
  {
    CountConcat(a, b);
    KindsConcat(a, b);
    if HonoursRetry(a + b) { HonoursParts(a, b); }
  }

  lemma SeenValidShift(a: seq<Event>, b: seq<Event>, lo: nat, url: Url)
    requires SeenValid(b, 0, |b|, url) && lo <= |a|
    ensures SeenValid(a + b, lo, |a + b|, url)
  {
    var i :| 0 <= i < |b| && Reports(b[i], url, "valid");
    assert Reports((a + b)[|a| + i], url, "valid");
  }

  lemma ExchangeIsBurst(run: seq<Event>, url: Url, payload: Payload, owed: nat, left: nat)
    requires Exchange(run, url, payload, owed, left)
    ensures Burst(run, url, payload) && Traffic(run, 1, owed, left) && ForPayload(run, payload)
  {
  }

  lemma OnlyToConcat(a: seq<Event>, b: seq<Event>, url: Url, payload: Payload)
    requires forall j :: 0 <= j < |a| ==> OnlyTo(a[j], url, payload)
    requires forall j :: 0 <= j < |b| ==> OnlyTo(b[j], url, payload)
    ensures forall j :: 0 <= j < |a + b| ==> OnlyTo((a + b)[j], url, payload)
    ensures ForPayload(a + b, payload)
  {
  }

  lemma BurstTwice(first: seq<Event>, again: seq<Event>, url: Url, payload: Payload, owed: nat, mid: nat, left: nat)
    requires Exchange(first, url, payload, owed, mid) && Exchange(again, url, payload, mid, left)
    requires Last(first).Some? && BadNonce(Last(first).value)
    ensures Burst(first + again, url, payload) && ForPayload(first + again, payload)
  {
    var run := first + again;
    OnlyToConcat(first, again, url, payload);
    assert forall k :: 0 <= k < |again| ==> run[|first| + k] == again[k];
    forall j | 0 <= j < |run| - 1 && run[j].Post? ensures BadNonce(run[j]) {
      assert j < |first| && run[j] == first[j];
    }
  }

  lemma ExchangeTwice(first: seq<Event>, again: seq<Event>, url: Url, payload: Payload, owed: nat, mid: nat, left: nat)
    requires Exchange(first, url, payload, owed, mid) && Exchange(again, url, payload, mid, left)
    requires Last(first).Some? && BadNonce(Last(first).value)
    ensures Burst(first + again, url, payload) && ForPayload(first + again, payload)
    ensures Traffic(first + again, 1, owed, left)
    ensures again != [] ==> Last(first + again) == Last(again)
    ensures again == [] ==> first + again == first
    ensures Last(again).Some? <==> Count(first + again).posts == 2
  {
    CountConcat(first, again);
    BurstTwice(first, again, url, payload, owed, mid, left);
    if again != [] { assert (first + again)[|first + again| - 1] == again[|again| - 1]; }
  }

  lemma RetryHonoured(first: seq<Event>, again: seq<Event>)
    requires Last(first).Some? && BadNonce(Last(first).value) && HonoursRetry(first + again)
    ensures Last(first).value.reply.nonce != ""
    ensures Last(again).Some? && Last(first).value.reply.nonce == Last(again).value.nonce
            ==> !BadNonce(Last(again).value)
  {
    var run := first + again;
    assert run[|first| - 1] == Last(first).value && BadNonceAt(run, |first| - 1);
    if Last(again).Some? {
      assert run[|run| - 1] == Last(again).value && PostAt(run, |run| - 1);
    }
  }

  lemma AskedQuiet(asked: seq<Event>, owed: nat, left: nat)
    requires (asked == [] && left <= owed) || ((exists r :: asked == [Get(r)]) && left == 0 && owed == 1)
    ensures Quiet(asked, owed, left) && Count(asked).heads == 0
  {
    if asked != [] { CountOne(asked[0]); }
  }

  lemma QuietHead(asked: seq<Event>, reply: Reply, owed: nat, left: nat)
    requires Quiet(asked, owed, left) && Count(asked).heads == 0
    ensures Quiet(asked + [Head(reply)], owed, left)
  {
    CountAppend(asked, Head(reply));
  }

  /** The signing of a request: the openssl call, and if it works the request. */
  ghost predicate Signed(sent: seq<Event>) {
    && 1 <= |sent| <= 2 && sent[0].Tool? && (sent[0].worked <==> |sent| == 2)
    && (|sent| == 2 ==> sent[1].Post?)
  }

  lemma QuietTool(asked: seq<Event>, worked: bool, url: Url, payload: Payload, owed: nat, left: nat)
    requires Quiet(asked, owed, left)
    ensures Exchange(asked + [Tool(worked)], url, payload, owed, left) && Last(asked + [Tool(worked)]) == None
  {
    CountAppend(asked, Tool(worked));
  }

  lemma ToolThenPost(before: seq<Event>, e: Event, owed: nat, left: nat)
    requires e.Post? && Exchange(before, e.url, e.payload, owed, left) && before != [] && Last(before).None?
    ensures Exchange(before + [e], e.url, e.payload, owed, left) && Last(before + [e]) == Some(e)
  {
    CountAppend(before, e);
    assert !before[|before| - 1].Post?;
  }

  lemma QuietSigned(asked: seq<Event>, sent: seq<Event>, url: Url, payload: Payload, owed: nat, left: nat)
    requires Quiet(asked, owed, left) && Signed(sent)
    requires |sent| == 2 ==> sent[1].url == url && sent[1].payload == payload
    ensures Exchange(asked + sent, url, payload, owed, left)
    ensures Last(asked + sent) == if |sent| == 2 then Some(sent[1]) else None
  {
    QuietTool(asked, sent[0].worked, url, payload, owed, left);
    if |sent| == 2 {
      ToolThenPost(asked + [sent[0]], sent[1], owed, left);
      assert asked + sent == asked + [sent[0]] + [sent[1]];
    } else {
      assert asked + sent == asked + [sent[0]];
    }
  }

  lemma ConvertedBurst(converted: seq<Event>, posted: seq<Event>, url: Url, payload: Payload, owed: nat, left: nat)
    requires Burst(posted, url, payload) && ForPayload(posted, payload)
    requires |converted| == 1 && converted[0].Tool?
    requires Traffic(converted, 0, owed, owed) && Traffic(posted, 1, owed, left)
    ensures Burst(converted + posted, url, payload) && ForPayload(converted + posted, payload)
    ensures Traffic(converted + posted, 1, owed, left)
    ensures Last(posted).Some? ==> Last(converted + posted) == Last(posted)
    ensures Disturbed(converted) || Disturbed(posted) ==> Disturbed(converted + posted)
    ensures HonoursRetry(converted + posted) ==> HonoursRetry(posted)
  {
    var run := converted + posted;
    assert run[0] == converted[0];
    assert forall j :: 0 < j < |run| ==> run[j] == posted[j - 1];
    TrafficThen(converted, posted, 0, 1, owed, owed, left);
    DisturbedConcat(converted, posted);
  }

  lemma LastFails(run: seq<Event>)
    requires Last(run).Some? && (Failing(Last(run).value) || BadNonce(Last(run).value))
    ensures BadNonce(Last(run).value) || Disturbed(run)
  {
    assert run[|run| - 1] == Last(run).value;
  }

  lemma AskedTraffic(run: seq<Event>, owed: nat, left: nat)
    requires (run == [] && left <= owed) || ((exists reply :: run == [Get(reply)]) && left == 0 && owed == 1)
    ensures Traffic(run, 0, owed, left)
  {
    if run != [] { CountOne(run[0]); }
  }

  /** The address the directory lists for this kind of request. */
  function Address(dir: Directory, payload: Payload): Option<Url> {
    match payload
    case NewAccount => dir.newAccount
    case NewOrder(_) => dir.newOrder
    case RevokeCert(_, _) => if dir.revokeCert == "" then None else Some(dir.revokeCert)
    case _ => None
  }

  ghost predicate ForPayload(run: seq<Event>, payload: Payload) {
    forall j :: 0 <= j < |run| ==>
      run[j].Get? || run[j].Head? || run[j].Tool? || (run[j].Post? && run[j].payload == payload)
  }

  datatype AuthzPlan = AlreadyValid | ToAnswer(domain: string, challenge: Challenge)

  /** Nothing to do for an authorization already valid, else the first challenge
      of the solver's kind. A response without identifier or challenges is an
      exception, one without the kind an AcmeError. */
  function ReadAuthz(reply: Reply, kind: SolverKind): (r: Result<AuthzPlan>)
    requires reply.Answer?
    ensures r == Ok(AlreadyValid) <==> reply.body.parsed.Json? && reply.body.parsed.obj.status == "valid"
    ensures r.Ok? && r.value.ToAnswer? ==>
      && reply.body.parsed.Json? && reply.body.parsed.obj.domain == Some(r.value.domain)
      && reply.body.parsed.obj.challenges.Some? && r.value.challenge in reply.body.parsed.obj.challenges.value
      && r.value.challenge.kind == if kind.Dns01? then "dns-01" else "http-01"
    ensures r.Err? && reply.body.parsed.Json? ==>
      reply.body.parsed.obj.status != "valid" && !Usable(reply.body.parsed.obj, ChallengeType(kind))
    ensures !r.RefusedNonce()
  {
    if !reply.body.parsed.Json? then Err(Crash)
    else
      var authz := reply.body.parsed.obj;
      if authz.status == "valid" then Ok(AlreadyValid)
      else if authz.domain.None? || authz.challenges.None? then Err(Crash)
      else
        var chal := FirstOfKind(authz.challenges.value, ChallengeType(kind));
        if chal.Err? then Err(chal.error) else Ok(ToAnswer(authz.domain.value, chal.value))
  }

  function FirstOfKind(challenges: seq<Challenge>, kind: string): (r: Result<Challenge>)
    ensures r.Ok? <==> exists c :: c in challenges && c.kind == kind
    ensures r.Ok? ==> r.value in challenges && r.value.kind == kind
    ensures !r.RefusedNonce()
  {
    if challenges == [] then Err(Acme(""))
    else if challenges[0].kind == kind then Ok(challenges[0])
    else FirstOfKind(challenges[1..], kind)
  }

  /** An answer that fails, or a challenge without an address, excuses its authorization. */
  lemma AnswerExcuse(fetched: seq<Event>, answered: seq<Event>, url: Url, plan: AuthzPlan, kind: SolverKind)
    requires plan.ToAnswer? && Last(fetched).Some? && Answers(Last(fetched).value, url)
    requires ReadAuthz(Last(fetched).value.reply, kind) == Ok(plan)
    ensures plan.challenge.url.None? || PollExcuse(answered, url) ==>
              AuthzExcuse(fetched + answered, url, ChallengeType(kind))
  {
    var run := fetched + answered;
    PollExcuseConcat(fetched, answered, url);
    if PollExcuse(answered, url) { PollIsExcuse(run, url, ChallengeType(kind)); }
    assert run[|fetched| - 1] == Last(fetched).value;
    if plan.challenge.url.None? { assert AuthzBad(run[|fetched| - 1], url, ChallengeType(kind)); }
  }

  ghost predicate AllSeen(run: seq<Event>, urls: seq<Url>) {
    forall u :: u in urls ==> SeenValid(run, 0, |run|, u)
  }

  lemma AllSeenThen(a: seq<Event>, b: seq<Event>, urls: seq<Url>, url: Url)
    requires AllSeen(a, urls) && SeenValid(b, 0, |b|, url)
    ensures AllSeen(a + b, urls + [url])
  {
    forall u | u in urls + [url] ensures SeenValid(a + b, 0, |a + b|, u) {
      if u in urls { SeenValidLater(a, a + b, 0, |a|, |a + b|, u); }
      else { SeenValidShift(a, b, 0, url); }
    }
  }

  function Authorizations(order: Object): nat {
    if order.authorizations.Some? then |order.authorizations.value| else 0
  }

  /** What issue returns is the leaf and the chain at the certificate address of
      the order, read after the order was reported valid. */
  ghost predicate Delivered(run: seq<Event>, orderUrl: Url, cert: (string, string)) {
    && Last(run).Some? && Last(run).value.payload == PostAsGet && Last(run).value.reply.Answer?
    && SplitChain(Last(run).value.reply.body.pems) == Ok(cert)
    && exists p :: 0 <= p < |run| - 1 && Reports(run[p], orderUrl, "valid")
         && run[p].reply.body.parsed.obj.certificate == Last(run).value.url != ""
  }

  // ------------------------------------------------------- the course of an order

  /** Everything from the created order on: set-ups before removals, no finalize
      before every authorization was seen valid, and the removals those of one
      cleanup of all the records. */
  ghost predicate OrderlyBody(run: seq<Event>, cleanup: nat, order: Object, csr: string, records: seq<Artefact>) {
    && cleanup <= |run|
    && NoRemove(run[..cleanup]) && NoFinalize(run[..cleanup]) && NoPlace(run[cleanup..])
    && BodyGuarded(run, order, csr)
    && CleanupTrace(records + Count(run).placed, Count(run).removals)
  }

  ghost predicate BodyGuarded(run: seq<Event>, order: Object, csr: string) {
    forall j :: 0 <= j < |run| && IsFinalize(run[j]) ==>
      && order.authorizations.Some? && order.finalize == Some(run[j].url)
      && run[j].payload == FinalizeCsr(csr)
      && (forall u :: u in order.authorizations.value ==> SeenValid(run, 0, j, u))
      && (forall i :: 0 <= i < j && IsFinalize(run[i]) ==> BadNonce(run[i]))
  }

  ghost predicate Orderly(run: seq<Event>, course: Course, csr: string, records: seq<Artefact>) {
    match course
    case NoOrder =>
      && NoFinalize(run) && NoPlace(run) && NoRemove(run)
      && Count(run).placed == [] && Count(run).removals == []
    case Ordered(order, at, cleanup) =>
      && at < cleanup <= |run| && CreatesOrder(run[at], order)
      && FinalizeGuarded(run, at, order, csr)
      && NoFinalize(run[..cleanup]) && NoRemove(run[..cleanup]) && NoPlace(run[cleanup..])
      && CleanupTrace(records + Count(run).placed, Count(run).removals)
  }

  lemma GuardedFrom(run: seq<Event>, body: seq<Event>, order: Object, csr: string)
    requires run != [] && BodyGuarded(body, order, csr)
    ensures FinalizeGuarded(run + body, |run| - 1, order, csr)
  {
    var all := run + body;
    forall j | |run| - 1 < j < |all| && IsFinalize(all[j])
      ensures order.authorizations.Some? && order.finalize == Some(all[j].url)
      ensures all[j].payload == FinalizeCsr(csr)
      ensures forall u :: u in order.authorizations.value ==> SeenValid(all, |run|, j, u)
      ensures forall i :: |run| - 1 < i < j && IsFinalize(all[i]) ==> BadNonce(all[i])
    {
      var k := j - |run|;
      assert all[j] == body[k];
      forall u | u in order.authorizations.value ensures SeenValid(all, |run|, j, u) {
        var i :| 0 <= i < k && Reports(body[i], u, "valid");
        assert Reports(all[|run| + i], u, "valid");
      }
      forall i | |run| - 1 < i < j && IsFinalize(all[i]) ensures BadNonce(all[i]) {
        assert all[i] == body[i - |run|];
      }
    }
  }

  /** A run that has created its order, with nothing else done yet. */
  ghost predicate JustOrdered(run: seq<Event>, order: Object, orderUrl: Url) {
    && Last(run).Some? && CreatesOrder(Last(run).value, order) && Last(run).value.reply.location == orderUrl
  }

  lemma OrderlyParts(run: seq<Event>, body: seq<Event>, cleanup: nat)
    requires NoFinalize(run) && NoRemove(run) && cleanup <= |body|
    requires NoRemove(body[..cleanup]) && NoFinalize(body[..cleanup]) && NoPlace(body[cleanup..])
    ensures NoRemove((run + body)[..|run| + cleanup]) && NoFinalize((run + body)[..|run| + cleanup])
    ensures NoPlace((run + body)[|run| + cleanup..])
  {
    assert (run + body)[..|run| + cleanup] == run + body[..cleanup];
    assert (run + body)[|run| + cleanup..] == body[cleanup..];
    KindsConcat(run, body[..cleanup]);
  }

  lemma OrderlyRun(run: seq<Event>, body: seq<Event>, cleanup: nat, order: Object, orderUrl: Url, csr: string,
                   records: seq<Artefact>, c: int, d: int, owed: nat, mid: nat)
    requires JustOrdered(run, order, orderUrl)
    requires Work(run, c, owed, mid) && NoPlace(run) && Count(run).placed == []
    requires OrderlyBody(body, cleanup, order, csr, records) && Effort(body, d, mid, 0)
    ensures Orderly(run + body, Ordered(order, |run| - 1, |run| + cleanup), csr, records)
    ensures Effort(run + body, c + d, owed, 0)
    ensures Count(run + body).removals == Count(body).removals
    ensures Count(run + body).placed == Count(body).placed
    ensures HonoursRetry(run + body) ==> HonoursRetry(body)
    ensures (run + body)[|run| - 1] == Last(run).value
  {
    CountConcatParts(run, body);
    GuardedFrom(run, body, order, csr);
    OrderlyParts(run, body, cleanup);
    if HonoursRetry(run + body) { HonoursParts(run, body); }
  }

  lemma AllRemove(cleaned: seq<Event>)
    requires forall j :: 0 <= j < |cleaned| ==> cleaned[j].Remove?
    ensures NoFinalize(cleaned) && NoPlace(cleaned)
  {
  }

  lemma BodyCleaned(work: seq<Event>, cleaned: seq<Event>, order: Object, csr: string, records: seq<Artefact>,
                    c: int, owed: nat, mid: nat)
    requires Work(work, c, owed, mid)
    requires forall j :: 0 <= j < |cleaned| ==> cleaned[j].Remove?
    requires Count(cleaned) == Tally(0, 0, 0, [], Count(cleaned).removals)
    requires CleanupTrace(records + Count(work).placed, Count(cleaned).removals)
    ensures OrderlyBody(work + cleaned, |work|, order, csr, records)
    ensures Effort(work + cleaned, c, owed, mid) && NoFinalize(work + cleaned)
    ensures Count(work + cleaned).placed == Count(work).placed
    ensures Count(work + cleaned).removals == Count(cleaned).removals
  {
    CountConcatParts(work, cleaned);
    AllRemove(cleaned);
    KindsConcat(work, cleaned);
    assert (work + cleaned)[..|work|] == work;
    assert (work + cleaned)[|work|..] == cleaned;
  }

  lemma BodyGuardedThen(work: seq<Event>, cleaned: seq<Event>, fin: seq<Event>, rest: seq<Event>,
                        order: Object, csr: string)
    requires NoFinalize(work + cleaned) && NoFinalize(rest)
    requires order.authorizations.Some? && AllSeen(work, order.authorizations.value)
    requires fin != [] ==> order.finalize.Some? && Burst(fin, order.finalize.value, FinalizeCsr(csr))
    ensures BodyGuarded(work + cleaned + (fin + rest), order, csr)
  {
    var before := work + cleaned;
    var end := fin + rest;
    var all := before + end;
    forall j | 0 <= j < |all| && IsFinalize(all[j])
      ensures order.finalize == Some(all[j].url) && all[j].payload == FinalizeCsr(csr)
      ensures forall u :: u in order.authorizations.value ==> SeenValid(all, 0, j, u)
      ensures forall i :: 0 <= i < j && IsFinalize(all[i]) ==> BadNonce(all[i])
    {
      assert j >= |before| && all[j] == end[j - |before|] == fin[j - |before|];
      forall u | u in order.authorizations.value ensures SeenValid(all, 0, j, u) {
        SeenValidLater(work, all, 0, |work|, j, u);
      }
      forall i | 0 <= i < j && IsFinalize(all[i]) ensures BadNonce(all[i]) {
        assert i >= |before| && all[i] == end[i - |before|] == fin[i - |before|];
      }
    }
  }

  lemma BodyFinished(work: seq<Event>, cleaned: seq<Event>, fin: seq<Event>, rest: seq<Event>,
                     order: Object, csr: string, records: seq<Artefact>,
                     c: int, d: int, owed: nat, mid: nat, left: nat)
    requires OrderlyBody(work + cleaned, |work|, order, csr, records) && NoFinalize(work + cleaned)
    requires Effort(work + cleaned, c, owed, mid) && Traffic(fin + rest, d, mid, left)
    requires order.authorizations.Some? && AllSeen(work, order.authorizations.value)
    requires fin != [] ==> order.finalize.Some? && Burst(fin, order.finalize.value, FinalizeCsr(csr))
    requires NoFinalize(rest) && NoPlace(fin + rest) && NoRemove(fin + rest)
    ensures OrderlyBody(work + cleaned + (fin + rest), |work|, order, csr, records)
    ensures Effort(work + cleaned + (fin + rest), c + d, owed, left)
    ensures Count(work + cleaned + (fin + rest)).placed == Count(work + cleaned).placed
    ensures Count(work + cleaned + (fin + rest)).removals == Count(work + cleaned).removals
  {
    var before := work + cleaned;
    var end := fin + rest;
    CountConcatParts(before, end);
    BodyGuardedThen(work, cleaned, fin, rest, order, csr);
    assert (before + end)[..|work|] == before[..|work|];
    assert (before + end)[|work|..] == before[|work|..] + end;
    KindsConcat(before[|work|..], end);
  }

  lemma AcceptedLater(a: seq<Event>, run: seq<Event>, b: seq<Event>)
    requires FinalizeAccepted(run)
    ensures FinalizeAccepted(a + (run + b))
  {
    var f :| 0 <= f < |run| && IsFinalize(run[f]) && run[f].reply.Answer? && run[f].reply.status < 400;
    assert (a + (run + b))[|a| + f] == run[f];
  }

  lemma DeliveredLater(a: seq<Event>, run: seq<Event>, orderUrl: Url, cert: (string, string))
    requires Delivered(run, orderUrl, cert)
    ensures Delivered(a + run, orderUrl, cert)
  {
    var p :| 0 <= p < |run| - 1 && Reports(run[p], orderUrl, "valid")
      && run[p].reply.body.parsed.obj.certificate == Last(run).value.url != "";
    assert (a + run)[|a| + p] == run[p];
    assert Last(a + run) == Last(run);
  }

  // ------------------------------------------------------- challenges and their answers

  /** The authorization read here, not yet valid, offers the challenge for its domain. */
  predicate Offers(e: Event, url: Url, kind: SolverKind, c: Challenge) {
    && Answers(e, url) && e.reply.body.parsed.Json? && e.reply.body.parsed.obj.status != "valid"
    && e.reply.body.parsed.obj.domain.Some? && e.reply.body.parsed.obj.challenges.Some?
    && c in e.reply.body.parsed.obj.challenges.value && c.kind == if kind.Dns01? then "dns-01" else "http-01"
  }

  ghost predicate OfferedAt(run: seq<Event>, i: int, urls: seq<Url>, kind: SolverKind, c: Challenge) {
    0 <= i < |run| && exists u :: u in urls && Offers(run[i], u, kind, c)
  }

  /** Where the challenge offered by this reading of an authorization is answered. */
  function AnswerTo(e: Event, kind: SolverKind, c: Challenge, thumb: string): Option<Artefact> {
    if e.Post? && e.reply.Answer? && e.reply.body.parsed.Json? && e.reply.body.parsed.obj.domain.Some?
    then Some(ArtefactFor(kind, e.reply.body.parsed.obj.domain.value, c.token, c.token + "." + thumb)) else None
  }

  /** What is set up answers a challenge some authorization offered before. */
  ghost predicate PlacedFor(run: seq<Event>, j: int, urls: seq<Url>, kind: SolverKind, thumb: string) {
    0 <= j < |run| && run[j].Place? ==>
      exists i, c :: i < j && OfferedAt(run, i, urls, kind, c)
                     && AnswerTo(run[i], kind, c, thumb) == Some(run[j].artefact)
  }

  /** The CA is told to validate a challenge only once its answer is in place. */
  ghost predicate AnnouncedFor(run: seq<Event>, j: int, urls: seq<Url>, kind: SolverKind, thumb: string) {
    0 <= j < |run| && run[j].Post? && run[j].payload == ChallengeReady ==>
      exists i, p, c :: i < p < j && OfferedAt(run, i, urls, kind, c) && c.url == Some(run[j].url)
                        && run[p].Place? && run[p].outcome.Done?
                        && AnswerTo(run[i], kind, c, thumb) == Some(run[p].artefact)
  }

  ghost predicate Challenged(run: seq<Event>, urls: seq<Url>, kind: SolverKind, thumb: string) {
    && (forall j :: PlacedFor(run, j, urls, kind, thumb))
    && (forall j :: AnnouncedFor(run, j, urls, kind, thumb))
  }

  /** The run ended at the n-th authorization: those before were reported valid, and
      nothing was set up or announced for those after. */
  ghost predicate StoppedAt(run: seq<Event>, urls: seq<Url>, n: int, kind: SolverKind, thumb: string) {
    0 <= n < |urls| && AllSeen(run, urls[..n]) && Challenged(run, urls[..n + 1], kind, thumb)
  }

  ghost predicate Unchallenging(run: seq<Event>) {
    forall j :: 0 <= j < |run| ==> !run[j].Place? && !(run[j].Post? && run[j].payload == ChallengeReady)
  }

  lemma OfferedLater(a: seq<Event>, b: seq<Event>, i: int, urls: seq<Url>, more: seq<Url>, kind: SolverKind,
              c: Challenge)
    requires OfferedAt(b, i, urls, kind, c) && forall u :: u in urls ==> u in more
    ensures (a + b)[|a| + i] == b[i] && OfferedAt(a + b, |a| + i, more, kind, c)
  {
    assert (a + b)[|a| + i] == b[i];
  }

  lemma OfferedBefore(a: seq<Event>, b: seq<Event>, i: int, urls: seq<Url>, more: seq<Url>, kind: SolverKind,
              c: Challenge)
    requires OfferedAt(a, i, urls, kind, c) && forall u :: u in urls ==> u in more
    ensures (a + b)[i] == a[i] && OfferedAt(a + b, i, more, kind, c)
  {
    assert (a + b)[i] == a[i];
  }

  lemma ChallengedBefore(a: seq<Event>, b: seq<Event>, j: nat, urls: seq<Url>, more: seq<Url>, kind: SolverKind,
                         thumb: string)
    requires Challenged(a, urls, kind, thumb) && (forall u :: u in urls ==> u in more) && j < |a|
    ensures PlacedFor(a + b, j, more, kind, thumb) && AnnouncedFor(a + b, j, more, kind, thumb)
  {
    assert (a + b)[j] == a[j];
    assert PlacedFor(a, j, urls, kind, thumb) && AnnouncedFor(a, j, urls, kind, thumb);
    if a[j].Place? {
      var i, c :| i < j && OfferedAt(a, i, urls, kind, c) && AnswerTo(a[i], kind, c, thumb) == Some(a[j].artefact);
      OfferedBefore(a, b, i, urls, more, kind, c);
    } else if a[j].Post? && a[j].payload == ChallengeReady {
      var i, p, c :| i < p < j && OfferedAt(a, i, urls, kind, c) && c.url == Some(a[j].url)
        && a[p].Place? && a[p].outcome.Done? && AnswerTo(a[i], kind, c, thumb) == Some(a[p].artefact);
      OfferedBefore(a, b, i, urls, more, kind, c);
      assert (a + b)[p] == a[p];
    }
  }

  lemma ChallengedAfter(a: seq<Event>, b: seq<Event>, j: nat, urls: seq<Url>, more: seq<Url>, kind: SolverKind,
                         thumb: string)
    requires Challenged(b, urls, kind, thumb) && (forall u :: u in urls ==> u in more) && j < |b|
    ensures PlacedFor(a + b, |a| + j, more, kind, thumb) && AnnouncedFor(a + b, |a| + j, more, kind, thumb)
  {
    assert (a + b)[|a| + j] == b[j];
    assert PlacedFor(b, j, urls, kind, thumb) && AnnouncedFor(b, j, urls, kind, thumb);
    if b[j].Place? {
      var i, c :| i < j && OfferedAt(b, i, urls, kind, c) && AnswerTo(b[i], kind, c, thumb) == Some(b[j].artefact);
      OfferedLater(a, b, i, urls, more, kind, c);
    } else if b[j].Post? && b[j].payload == ChallengeReady {
      var i, p, c :| i < p < j && OfferedAt(b, i, urls, kind, c) && c.url == Some(b[j].url)
        && b[p].Place? && b[p].outcome.Done? && AnswerTo(b[i], kind, c, thumb) == Some(b[p].artefact);
      OfferedLater(a, b, i, urls, more, kind, c);
      assert (a + b)[|a| + p] == b[p];
    }
  }

  lemma ChallengedConcat(a: seq<Event>, b: seq<Event>, us: seq<Url>, vs: seq<Url>, more: seq<Url>, kind: SolverKind,
                         thumb: string)
    requires Challenged(a, us, kind, thumb) && Challenged(b, vs, kind, thumb)
    requires (forall u :: u in us ==> u in more) && (forall u :: u in vs ==> u in more)
    ensures Challenged(a + b, more, kind, thumb)
  {
    forall j ensures PlacedFor(a + b, j, more, kind, thumb) && AnnouncedFor(a + b, j, more, kind, thumb) {
      if 0 <= j < |a| {
        ChallengedBefore(a, b, j, us, more, kind, thumb);
      } else if |a| <= j < |a + b| {
        ChallengedAfter(a, b, j - |a|, vs, more, kind, thumb);
      }
    }
  }

  lemma UnchallengingConcat(a: seq<Event>, b: seq<Event>)
    requires Unchallenging(a) && Unchallenging(b)
    ensures Unchallenging(a + b)
  {
  }

  /** The CA is told of the challenge at this address only. */
  ghost predicate ToldOnlyTo(run: seq<Event>, url: Url) {
    forall j :: 0 <= j < |run| && run[j].Post? && run[j].payload == ChallengeReady ==> run[j].url == url
  }

  lemma AnnouncedTo(first: seq<Event>, rest: seq<Event>, url: Url)
    requires Burst(first, url, ChallengeReady) && ForPayload(rest, PostAsGet)
    ensures NoPlace(first + rest)
    ensures ToldOnlyTo(first + rest, url)
  {
    var run := first + rest;
    forall j | 0 <= j < |run| ensures OnlyTo(run[j], url, ChallengeReady) || OnlyTo(run[j], run[j].url, PostAsGet) {
      if j < |first| { assert run[j] == first[j]; } else { assert run[j] == rest[j - |first|]; }
    }
  }

  lemma Unchallenged(run: seq<Event>, urls: seq<Url>, kind: SolverKind, thumb: string)
    requires Unchallenging(run)
    ensures Challenged(run, urls, kind, thumb)
  {
  }

  /** One authorization read, its answer set up, and the CA told of it. */
  lemma ChallengedOne(fetched: seq<Event>, answered: seq<Event>, url: Url, c: Challenge, kind: SolverKind,
                      thumb: string)
    requires Unchallenging(fetched) && fetched != [] && Offers(fetched[|fetched| - 1], url, kind, c)
    requires answered != [] && answered[0].Place?
    requires AnswerTo(fetched[|fetched| - 1], kind, c, thumb) == Some(answered[0].artefact)
    requires forall j :: 0 < j < |answered| ==> !answered[j].Place?
    requires forall j :: 0 < j < |answered| && answered[j].Post? && answered[j].payload == ChallengeReady ==>
               answered[0].outcome.Done? && c.url == Some(answered[j].url)
    ensures Challenged(fetched + answered, [url], kind, thumb)
  {
    var run, i := fetched + answered, |fetched| - 1;
    assert run[i] == fetched[i] && run[|fetched|] == answered[0];
    assert OfferedAt(run, i, [url], kind, c);
    forall j ensures PlacedFor(run, j, [url], kind, thumb) && AnnouncedFor(run, j, [url], kind, thumb) {
      if 0 <= j < |fetched| {
        assert run[j] == fetched[j];
      } else if |fetched| <= j < |run| {
        assert run[j] == answered[j - |fetched|];
      }
    }
  }

  // ------------------------------------------------------------------- why a run fails

  ghost predicate SomeAuthzExcuse(run: seq<Event>, urls: seq<Url>, kind: SolverKind) {
    exists u :: u in urls && AuthzExcuse(run, u, ChallengeType(kind))
  }

  lemma SomeAuthzConcat(a: seq<Event>, b: seq<Event>, urls: seq<Url>, kind: SolverKind)
    ensures SomeAuthzExcuse(a, urls, kind) || SomeAuthzExcuse(b, urls, kind) ==> SomeAuthzExcuse(a + b, urls, kind)
  {
    if SomeAuthzExcuse(a, urls, kind) {
      var u :| u in urls && AuthzExcuse(a, u, ChallengeType(kind));
      AuthzExcuseConcat(a, b, u, ChallengeType(kind));
    } else if SomeAuthzExcuse(b, urls, kind) {
      var u :| u in urls && AuthzExcuse(b, u, ChallengeType(kind));
      AuthzExcuseConcat(a, b, u, ChallengeType(kind));
    }
  }

  /** Why no order came about: something failed, or the CA took a request without giving
      an account or a usable order. */
  ghost predicate OpenExcuse(run: seq<Event>) {
    Disturbed(run) || exists i :: 0 <= i < |run| && (NoAccount(run[i]) || NoOrderGiven(run[i]))
  }

  /** Why an order did not lead to a certificate. */
  ghost predicate FulfilExcuse(run: seq<Event>, order: Object, orderUrl: Url, kind: SolverKind) {
    Disturbed(run) || OrderExcuse(run, orderUrl)
    || (order.authorizations.Some? && SomeAuthzExcuse(run, order.authorizations.value, kind))
  }

  lemma OpenExcuseConcat(a: seq<Event>, b: seq<Event>)
    ensures OpenExcuse(a) || OpenExcuse(b) ==> OpenExcuse(a + b)
  {
    DisturbedConcat(a, b);
    if exists i :: 0 <= i < |a| && (NoAccount(a[i]) || NoOrderGiven(a[i])) {
      var i :| 0 <= i < |a| && (NoAccount(a[i]) || NoOrderGiven(a[i]));
      assert (a + b)[i] == a[i];
    } else if exists i :: 0 <= i < |b| && (NoAccount(b[i]) || NoOrderGiven(b[i])) {
      var i :| 0 <= i < |b| && (NoAccount(b[i]) || NoOrderGiven(b[i]));
      assert (a + b)[|a| + i] == b[i];
    }
  }

  lemma FulfilExcuseAfter(a: seq<Event>, b: seq<Event>, order: Object, orderUrl: Url, kind: SolverKind)
    ensures FulfilExcuse(b, order, orderUrl, kind) ==> FulfilExcuse(a + b, order, orderUrl, kind)
  {
    DisturbedConcat(a, b);
    OrderExcuseAfter(a, b, orderUrl);
    if order.authorizations.Some? { SomeAuthzConcat(a, b, order.authorizations.value, kind); }
  }

  /** The last event is the answer read. */
  lemma AnsweredLast(run: seq<Event>, url: Url)
    requires Last(run).Some? && Answers(Last(run).value, url)
    ensures PollBad(Last(run).value, url) ==> PollExcuse(run, url)
  {
    assert run[|run| - 1] == Last(run).value;
  }

  /** An order without the fields it needs was given by the last request. */
  lemma OrderUnusable(run: seq<Event>, order: Object)
    requires Last(run).Some? && CreatesOrder(Last(run).value, order)
    ensures order.authorizations.None? || order.finalize.None? ==> OpenExcuse(run)
  {
    assert run[|run| - 1] == Last(run).value;
    if order.authorizations.None? || order.finalize.None? { assert NoOrderGiven(run[|run| - 1]); }
  }

  lemma CleanedChallenges(work: seq<Event>, cleaned: seq<Event>, order: Object, orderUrl: Url, kind: SolverKind,
                          thumb: string)
    requires order.authorizations.Some? ==> Challenged(work, order.authorizations.value, kind, thumb)
    requires forall j :: 0 <= j < |cleaned| ==> cleaned[j].Remove?
    ensures order.authorizations.Some? ==> Challenged(work + cleaned, order.authorizations.value, kind, thumb)
    ensures Disturbed(cleaned) ==> FulfilExcuse(work + cleaned, order, orderUrl, kind)
    ensures order.authorizations.Some? && SomeAuthzExcuse(work, order.authorizations.value, kind)
            ==> FulfilExcuse(work + cleaned, order, orderUrl, kind)
  {
    DisturbedConcat(work, cleaned);
    if order.authorizations.Some? {
      var urls := order.authorizations.value;
      Unchallenged(cleaned, urls, kind, thumb);
      ChallengedConcat(work, cleaned, urls, urls, urls, kind, thumb);
      SomeAuthzConcat(work, cleaned, urls, kind);
    }
  }

  lemma BodyConcluded(run: seq<Event>, fin: seq<Event>, rest: seq<Event>, order: Object, orderUrl: Url,
                      kind: SolverKind, thumb: string, r: Result<(string, string)>)
    requires order.authorizations.Some? && Challenged(run, order.authorizations.value, kind, thumb)
    requires Unchallenging(fin + rest) && (r.Ok? ==> Delivered(rest, orderUrl, r.value) && FinalizeAccepted(fin))
    ensures Challenged(run + (fin + rest), order.authorizations.value, kind, thumb)
    ensures OrderExcuse(fin + rest, orderUrl) ==> FulfilExcuse(run + (fin + rest), order, orderUrl, kind)
    ensures r.Ok? ==> Delivered(run + (fin + rest), orderUrl, r.value) && FinalizeAccepted(run + (fin + rest))
    ensures HonoursRetry(run + (fin + rest)) ==> HonoursRetry(fin + rest)
  {
    var urls, end := order.authorizations.value, fin + rest;
    OrderExcuseAfter(run, end, orderUrl);
    Unchallenged(end, urls, kind, thumb);
    ChallengedConcat(run, end, urls, urls, urls, kind, thumb);
    if r.Ok? {
      DeliveredLater(fin, rest, orderUrl, r.value);
      DeliveredLater(run, end, orderUrl, r.value);
      AcceptedLater(run, fin, rest);
    }
    if HonoursRetry(run + end) { HonoursParts(run, end); }
  }

  lemma LastWaits(run: seq<Event>, url: Url)
    requires Last(run).Some? && StillWaiting(Last(run).value, url)
    ensures Waits(run, url) >= 1
  {
  }

  lemma OneMoreRead(before: seq<Event>, sent: seq<Event>, url: Url)
    requires WaitingFor(before, url, |before|) && Burst(sent, url, PostAsGet)
    ensures WaitingFor(before + sent, url, |before + sent| - 1)
    ensures (Last(sent).Some? ==> StillWaiting(Last(sent).value, url)) ==>
              WaitingFor(before + sent, url, |before + sent|)
  {
    var run := before + sent;
    assert forall k :: 0 <= k < |sent| - 1 ==> !Answers(sent[k], url);
    assert forall j :: |before| <= j < |run| ==> run[j] == sent[j - |before|];
    if sent != [] { assert run[|run| - 1] == sent[|sent| - 1]; } else { assert run == before; }
  }

  lemma Stopped(before: seq<Event>, more: seq<Event>, urls: seq<Url>, i: nat, kind: SolverKind, thumb: string)
    requires i < |urls| && AllSeen(before, urls[..i])
    requires Challenged(before, urls[..i], kind, thumb) && Challenged(more, [urls[i]], kind, thumb)
    ensures StoppedAt(before + more, urls, i, kind, thumb) && Challenged(before + more, urls, kind, thumb)
    ensures AuthzExcuse(more, urls[i], ChallengeType(kind)) ==> SomeAuthzExcuse(before + more, urls, kind)
  {
    var run := before + more;
    forall u | u in urls[..i] ensures SeenValid(run, 0, |run|, u) {
      SeenValidLater(before, run, 0, |before|, |run|, u);
    }
    ChallengedConcat(before, more, urls[..i], [urls[i]], urls[..i + 1], kind, thumb);
    ChallengedConcat(before, more, urls[..i], [urls[i]], urls, kind, thumb);
    AuthzExcuseConcat(before, more, urls[i], ChallengeType(kind));
  }

  /** What the client's fields say about the log. */
  ghost predicate Facts(log: seq<Event>, nonce: string, kid: Url, dir: Option<Directory>) {
    && LogInv(log)
    && (nonce != "" ==> Unspent(log, nonce))
    && (kid != "" ==> AccountKnown(log, kid))
    && (dir.Some? && Lacks(dir.value) ==> DirectoryLacks(log))
  }

  lemma QuietKeeps(log: seq<Event>, later: seq<Event>, nonce: string, kid: Url, dir: Option<Directory>)
    requires Facts(log, nonce, kid, dir) && log <= later && NoPostIn(later, |log|, |later|)
    ensures Facts(later, nonce, kid, dir)
    ensures forall n :: Unspent(log, n) ==> Unspent(later, n)
  {
    InvQuiet(log, later);
    forall n | Unspent(log, n) ensures Unspent(later, n) { UnspentLater(log, later, n); }
    if kid != "" { AccountKnownLater(log, later, kid); }
    if DirectoryLacks(log) { DirectoryLacksLater(log, later); }
  }

  lemma PostKeeps(log: seq<Event>, e: Event, kid: Url, dir: Option<Directory>)
    requires Facts(log, "", kid, dir) && e.Post? && Unspent(log, e.nonce)
    requires
      if e.payload.NewAccount? then e.auth == Jwk
      else e.auth.Kid? && e.auth.kid != "" && AccountKnown(log, e.auth.kid)
    ensures Facts(log + [e], "", kid, dir)
    ensures e.reply.Answer? && e.reply.nonce != "" ==> Facts(log + [e], e.reply.nonce, kid, dir)
  {
    InvPost(log, e);
    if kid != "" { AccountKnownLater(log, log + [e], kid); }
    if DirectoryLacks(log) { DirectoryLacksLater(log, log + [e]); }
    if e.reply.Answer? && e.reply.nonce != "" { assert Gives((log + [e])[|log|], e.reply.nonce); }
  }

  lemma DirectoryRead(log: seq<Event>, reply: Reply, nonce: string, kid: Url)
    requires Facts(log + [Get(reply)], nonce, kid, None) && reply.Answer? && reply.body.directory.Some?
    ensures Facts(log + [Get(reply)], nonce, kid, reply.body.directory)
  {
    assert (log + [Get(reply)])[|log|] == Get(reply);
  }

  class AcmeClient {
    const world: World
    const thumb: string
    var dir: Option<Directory>
    var nonce: string
    var kid: Url
    ghost var calls: nat

    ghost predicate Valid()
      reads this, world
    {
      Facts(world.log, nonce, kid, dir)
    }

    constructor (world: World, thumb: string)
      requires world.log == []
      ensures Valid() && this.world == world && calls == 0 && dir == None && kid == "" && this.thumb == thumb
    {
      this.world, this.thumb := world, thumb;
      dir, nonce, kid, calls := None, "", "", 0;
    }

    method GetDirectory() returns (r: Result<Directory>, ghost run: seq<Event>)
      requires Valid()
      modifies this, world
      ensures Valid() && nonce == old(nonce) && kid == old(kid) && calls == old(calls)
      ensures world.log == old(world.log) + run
      ensures old(dir).Some? ==> r == Ok(old(dir).value) && run == []
      ensures old(dir).None? ==> exists reply :: run == [Get(reply)]
      ensures r.Ok? ==> dir == Some(r.value)
      ensures r.Err? ==> dir == None && Disturbed(run)
      ensures !r.RefusedNonce()
    {
      if dir.Some? { return Ok(dir.value), []; }
      ghost var log := world.log;
      var reply := world.FetchDirectory();
      run := [Get(reply)];
      QuietKeeps(log, world.log, nonce, kid, dir);
      assert run[0] == Get(reply);
      match reply
      case Unreachable => r := Err(Acme(""));
      case Broken => r := Err(Crash);
      case Answer(status, _, _, body) =>
        if status != 200 { return Err(Acme("")), run; }
        if body.directory.None? { return Err(Crash), run; }
        DirectoryRead(log, reply, nonce, kid);
        dir := body.directory;
        r := Ok(dir.value);
    }

    /** The cached nonce, which is thereby spent, or one asked for. */
    method GetNonce() returns (r: Result<string>, ghost run: seq<Event>)
      requires Valid()
      modifies this, world
      ensures Valid() && nonce == "" && kid == old(kid) && calls == old(calls)
      ensures old(dir).Some? ==> dir == old(dir)
      ensures world.log == old(world.log) + run
      ensures Quiet(run, Owed(old(dir)), if r.Ok? then Owed(dir) else 0)
      ensures r.Ok? ==> r.value != "" && Unspent(world.log, r.value)
      ensures old(nonce) != "" ==> r == Ok(old(nonce)) && run == []
      ensures r.Err? ==> Disturbed(run) || DirectoryLacks(world.log)
      ensures !r.RefusedNonce()
    {
      if nonce != "" {
        var n := nonce;
        nonce := "";
        return Ok(n), [];
      }
      var got, asked := GetDirectory();
      run := asked;
      AskedQuiet(asked, Owed(old(dir)), if got.Ok? then Owed(dir) else 0);
      if got.Err? { return Err(got.error), run; }
      if got.value.newNonce.None? { return Err(Crash), run; }
      ghost var log := world.log;
      var reply := world.FetchNonce();
      QuietHead(asked, reply, Owed(old(dir)), Owed(dir));
      run := asked + [Head(reply)];
      Assoc(old(world.log), asked, [Head(reply)]);
      QuietKeeps(log, world.log, nonce, kid, dir);
      assert run[|asked|] == Head(reply);
      match reply
      case Unreachable => r := Err(Acme(""));
      case Broken => r := Err(Crash);
      case Answer(_, given, _, _) =>
        if given == "" { return Err(Acme("")), run; }
        assert Gives(world.log[|log|], given);
        r := Ok(given);
    }

    /** One request: nonce, signature, POST. It succeeds exactly when the request was
        answered. */
    method PostOnce(url: Url, payload: Payload, useJwk: bool) returns (r: Result<Reply>, ghost run: seq<Event>)
      requires Valid()
      requires useJwk <==> payload.NewAccount?
      requires !useJwk ==> kid != ""
      modifies this, world
      ensures Valid() && kid == old(kid) && calls == old(calls)
      ensures old(dir).Some? ==> dir == old(dir)
      ensures world.log == old(world.log) + run
      ensures Exchange(run, url, payload, Owed(old(dir)), if r.Ok? then Owed(dir) else 0)
      ensures r.Ok? <==> Last(run).Some? && Last(run).value.reply.Answer?
      ensures r.Ok? ==>
        && Last(run).value.reply == r.value
        && (r.value.nonce != "" ==> nonce == r.value.nonce)
        && (old(nonce) != "" ==> Last(run).value.nonce == old(nonce))
      ensures r.Err? ==> Disturbed(run) || DirectoryLacks(world.log)
      ensures !r.RefusedNonce()
    {
      var got, asked := GetNonce();
      run := asked;
      if got.Err? { return Err(got.error), run; }
      ghost var sent: seq<Event>;
      r, sent := Transmit(url, payload, useJwk, got.value);
      run := asked + sent;
      Assoc(old(world.log), asked, sent);
      QuietSigned(asked, sent, url, payload, Owed(old(dir)), Owed(dir));
      DisturbedConcat(asked, sent);
    }

    /** Signs with the nonce and sends. */
    method Transmit(url: Url, payload: Payload, useJwk: bool, unspent: string)
      returns (r: Result<Reply>, ghost sent: seq<Event>)
      requires Valid() && Unspent(world.log, unspent) && nonce == ""
      requires useJwk <==> payload.NewAccount?
      requires !useJwk ==> kid != ""
      modifies this, world
      ensures Valid() && kid == old(kid) && calls == old(calls) && dir == old(dir)
      ensures world.log == old(world.log) + sent && Signed(sent)
      ensures |sent| == 2 ==> sent[1].url == url && sent[1].payload == payload && sent[1].nonce == unspent
      ensures r.Ok? <==> |sent| == 2 && sent[1].reply.Answer?
      ensures r.Ok? ==> sent[1].reply == r.value && (r.value.nonce != "" ==> nonce == r.value.nonce)
      ensures r.Err? ==> Disturbed(sent)
      ensures !r.RefusedNonce()
    {
      ghost var log := world.log;
      var signature := world.RunOpenssl();
      sent := [Tool(signature.Ok?)];
      QuietKeeps(log, world.log, nonce, kid, dir);
      if signature.Err? {
        assert Failing(sent[0]);
        return Err(signature.error), sent;
      }
      log := world.log;
      var auth := if useJwk then Jwk else Kid(kid);
      var reply := world.SendPost(url, payload, unspent, auth);
      ghost var e := Post(url, payload, unspent, auth, reply);
      sent := [Tool(true), e];
      PostKeeps(log, e, kid, dir);
      assert sent[1] == e && world.log == log + [e];
      match reply
      case Unreachable => r := Err(Acme(""));
      case Broken => r := Err(Crash);
      case Answer(_, given, _, _) =>
        if given != "" { nonce := given; }
        r := Ok(reply);
    }

    /** Signs and sends, once more with the nonce of the refusal if the first
        attempt is refused for its nonce. It succeeds exactly when the last request was
        accepted, and never ends on a refusal for the nonce that was not retried. */
    method SignedPost(url: Url, payload: Payload, useJwk: bool) returns (r: Result<Reply>, ghost run: seq<Event>)
      requires Valid()
      requires useJwk <==> payload.NewAccount?
      requires !useJwk ==> kid != ""
      modifies this, world
      ensures Valid() && kid == old(kid) && calls == old(calls) + 1
      ensures old(dir).Some? ==> dir == old(dir)
      ensures world.log == old(world.log) + run
      ensures Burst(run, url, payload) && ForPayload(run, payload)
      ensures Traffic(run, 1, Owed(old(dir)), if r.Ok? then Owed(dir) else 0)
      ensures r.Ok? <==> Last(run).Some? && Last(run).value.reply.Answer? && Last(run).value.reply.status < 400
      ensures r.Ok? ==> Last(run).value.reply == r.value
      ensures Last(run).Some? && BadNonce(Last(run).value) ==> Count(run).posts == 2 || DirectoryLacks(world.log)
      ensures r.RefusedNonce() <==> Count(run).posts == 2 && Last(run).Some? && BadNonce(Last(run).value)
      ensures r.Err? && !r.RefusedNonce() ==> Disturbed(run) || DirectoryLacks(world.log)
      ensures HonoursRetry(run) ==> !r.RefusedNonce()
    {
      calls := calls + 1;
      var first, sent := PostOnce(url, payload, useJwk);
      run := sent;
      ghost var left := if first.Ok? then Owed(dir) else 0;
      ExchangeIsBurst(run, url, payload, Owed(old(dir)), left);
      if first.Err? { return first, run; }
      var reply := first.value;
      if reply.status < 400 { return Ok(reply), run; }
      LastFails(run);
      if !Rejection(reply).RefusedNonce() { return Rejection(reply), run; }
      var second, again := PostOnce(url, payload, useJwk);
      ExchangeTwice(sent, again, url, payload, Owed(old(dir)), left, if second.Ok? then Owed(dir) else 0);
      run := sent + again;
      Assoc(old(world.log), sent, again);
      DisturbedConcat(sent, again);
      if HonoursRetry(run) { RetryHonoured(sent, again); }
      if second.Err? || second.value.status < 400 { return second, run; }
      LastFails(run);
      r := Rejection(second.value);
    }

    /** A signed POST to an address the directory lists. */
    method PostToResource(payload: Payload) returns (r: Result<Reply>, ghost run: seq<Event>)
      requires Valid() && (payload.NewAccount? || payload.NewOrder? || payload.RevokeCert?)
      requires !payload.NewAccount? ==> kid != ""
      modifies this, world
      ensures Valid() && kid == old(kid) && old(calls) <= calls <= old(calls) + 1
      ensures world.log == old(world.log) + run
      ensures ForPayload(run, payload)
      ensures Traffic(run, calls - old(calls), Owed(old(dir)), if r.Ok? then Owed(dir) else 0)
      ensures r.Ok? ==>
        && Last(run).Some? && Last(run).value.reply == r.value
        && r.value.Answer? && r.value.status < 400
      ensures r.Err? && !r.RefusedNonce() ==>
        Disturbed(run) || DirectoryLacks(world.log)
        || (payload.RevokeCert? && dir.Some? && dir.value.revokeCert == "")
      ensures r.Ok? ==> dir.Some? && Addressed(dir.value, Last(run).value)
      ensures HonoursRetry(run) ==> !r.RefusedNonce()
    {
      var got, asked := GetDirectory();
      run := asked;
      AskedTraffic(run, Owed(old(dir)), if got.Ok? then Owed(dir) else 0);
      if got.Err? { return Err(got.error), run; }
      var url := Address(got.value, payload);
      if url.None? { return Err(if payload.RevokeCert? then Acme("") else Crash), run; }
      ghost var mid := Owed(dir);
      ghost var sent: seq<Event>;
      r, sent := ConvertAndPost(url.value, payload);
      run := asked + sent;
      Assoc(old(world.log), asked, sent);
      TrafficThen(asked, sent, 0, calls - old(calls), Owed(old(dir)), mid, if r.Ok? then Owed(dir) else 0);
      DisturbedConcat(asked, sent);
    }

    /** A signed POST, for a revocation after the certificate is converted. */
    method ConvertAndPost(url: Url, payload: Payload) returns (r: Result<Reply>, ghost run: seq<Event>)
      requires Valid()
      requires !payload.NewAccount? ==> kid != ""
      modifies this, world
      ensures Valid() && kid == old(kid) && old(calls) <= calls <= old(calls) + 1
      ensures old(dir).Some? ==> dir == old(dir)
      ensures world.log == old(world.log) + run
      ensures ForPayload(run, payload)
      ensures Traffic(run, calls - old(calls), Owed(old(dir)), if r.Ok? then Owed(dir) else 0)
      ensures r.Ok? ==>
        && Last(run).Some? && Last(run).value.reply == r.value
        && r.value.Answer? && r.value.status < 400
      ensures r.Err? && !r.RefusedNonce() ==> Disturbed(run) || DirectoryLacks(world.log)
      ensures r.Ok? ==> Last(run).value.url == url && Last(run).value.payload == payload
      ensures HonoursRetry(run) ==> !r.RefusedNonce()
    {
      run := [];
      if payload.RevokeCert? {
        var converted: Result<()>;
        converted, run := Convert();
        if converted.Err? { return Err(converted.error), run; }
      }
      ghost var before := run;
      ghost var sent: seq<Event>;
      r, sent := SignedPost(url, payload, payload.NewAccount?);
      run := before + sent;
      Assoc(old(world.log), before, sent);
      TrafficThen(before, sent, 0, 1, Owed(old(dir)), Owed(old(dir)), if r.Ok? then Owed(dir) else 0);
      DisturbedConcat(before, sent);
    }

    /** The openssl call that turns a request or a certificate into what is sent. */
    method Convert() returns (r: Result<()>, ghost run: seq<Event>)
      requires Valid()
      modifies this, world
      ensures Valid() && kid == old(kid) && calls == old(calls) && dir == old(dir)
      ensures world.log == old(world.log) + run && run == [Tool(r.Ok?)]
      ensures Traffic(run, 0, Owed(old(dir)), Owed(dir))
      ensures r.Err? ==> Disturbed(run)
      ensures !r.RefusedNonce()
    {
      ghost var log := world.log;
      r := world.RunOpenssl();
      run := [Tool(r.Ok?)];
      QuietKeeps(log, world.log, nonce, kid, dir);
      CountOne(run[0]);
    }

    /** Creates the account, or looks it up, and keeps its URL. */
    method Register() returns (r: Result<Url>, ghost run: seq<Event>)
      requires Valid()
      modifies this, world
      ensures Valid() && old(calls) <= calls <= old(calls) + 1
      ensures world.log == old(world.log) + run
      ensures ForPayload(run, NewAccount)
      ensures Traffic(run, calls - old(calls), Owed(old(dir)), if r.Ok? then Owed(dir) else 0)
      ensures r.Ok? ==> kid == r.value && kid != "" && Last(run).Some? && OpensAccount(Last(run).value, kid)
      ensures r.Err? && !r.RefusedNonce() ==> OpenExcuse(run) || DirectoryLacks(world.log)
      ensures r.Ok? ==> dir.Some? && Addressed(dir.value, Last(run).value)
      ensures HonoursRetry(run) ==> !r.RefusedNonce()
    {
      var posted, sent := PostToResource(NewAccount);
      run := sent;
      if posted.Err? { return Err(posted.error), run; }
      assert run[|run| - 1] == Last(run).value;
      if posted.value.status != 200 && posted.value.status != 201 { return Err(Acme("")), run; }
      assert OpensAccount(world.log[|world.log| - 1], posted.value.location);
      kid := posted.value.location;
      r := if kid == "" then Err(Acme("")) else Ok(kid);
    }

    method EnsureAccount() returns (r: Result<()>, ghost run: seq<Event>)
      requires Valid()
      modifies this, world
      ensures Valid() && old(calls) <= calls <= old(calls) + 1
      ensures world.log == old(world.log) + run
      ensures ForPayload(run, NewAccount)
      ensures Traffic(run, calls - old(calls), Owed(old(dir)), if r.Ok? then Owed(dir) else 0)
      ensures r.Ok? ==> kid != ""
      ensures old(kid) != "" ==> r.Ok? && run == [] && kid == old(kid)
      ensures old(kid) == "" && r.Ok? ==> Last(run).Some? && OpensAccount(Last(run).value, kid)
      ensures r.Err? && !r.RefusedNonce() ==> OpenExcuse(run) || DirectoryLacks(world.log)
      ensures HonoursRetry(run) ==> !r.RefusedNonce()
    {
      if kid != "" { return Ok(()), []; }
      var registered, sent := Register();
      run := sent;
      r := if registered.Ok? then Ok(()) else Err(registered.error);
    }

    /** Asks for the object at `url` until it is valid, at most POLL_TRIES times. */
    method Poll(url: Url) returns (r: Result<Object>, ghost run: seq<Event>)
      requires Valid() && kid != ""
      modifies this, world
      ensures Valid() && kid == old(kid) && calls <= old(calls) + POLL_TRIES
      ensures world.log == old(world.log) + run
      ensures ForPayload(run, PostAsGet)
      ensures Traffic(run, calls - old(calls), Owed(old(dir)), if r.Ok? then Owed(dir) else 0)
      ensures r.Ok? ==>
        && Last(run).Some? && Reports(Last(run).value, url, "valid")
        && Last(run).value.reply.body.parsed.obj == r.value
      ensures WaitingFor(run, url, |run| - 1)
      ensures r.Err? && !r.RefusedNonce() ==> PollExcuse(run, url) || DirectoryLacks(world.log)
      ensures HonoursRetry(run) ==> !r.RefusedNonce()
    {
      run := [];
      for t := 0 to POLL_TRIES
        invariant Valid() && kid == old(kid) && calls == old(calls) + t
        invariant world.log == old(world.log) + run
        invariant ForPayload(run, PostAsGet)
        invariant Traffic(run, t, Owed(old(dir)), Owed(dir))
        invariant Waits(run, url) >= t && WaitingFor(run, url, |run|)
      {
        ghost var before, mid := run, Owed(dir);
        var posted, sent := SignedPost(url, PostAsGet, false);
        run := before + sent;
        Assoc(old(world.log), before, sent);
        TrafficThen(before, sent, t, 1, Owed(old(dir)), mid, if posted.Ok? then Owed(dir) else 0);
        PollExcuseConcat(before, sent, url);
        WaitsConcat(before, sent, url);
        OneMoreRead(before, sent, url);
        if posted.Err? { return Err(posted.error), run; }
        AnsweredLast(run, url);
        match posted.value.body.parsed {
          case NotJson => return Err(Crash), run;
          case NotObject => return Err(Crash), run;
          case Json(obj) =>
            if obj.status == "valid" { return Ok(obj), run; }
            if obj.status == "invalid" { return Err(Acme("")), run; }
            LastWaits(sent, url);
        }
      }
      r := Err(Acme(""));
    }

    method CreateOrder(names: seq<string>) returns (r: Result<(Url, Object)>, ghost run: seq<Event>)
      requires Valid() && kid != ""
      modifies this, world
      ensures Valid() && kid == old(kid) && old(calls) <= calls <= old(calls) + 1
      ensures world.log == old(world.log) + run
      ensures ForPayload(run, NewOrder(names))
      ensures Traffic(run, calls - old(calls), Owed(old(dir)), if r.Ok? then Owed(dir) else 0)
      ensures r.Ok? ==>
        && Last(run).Some? && CreatesOrder(Last(run).value, r.value.1)
        && Last(run).value.reply.location == r.value.0
      ensures r.Err? && !r.RefusedNonce() ==> OpenExcuse(run) || DirectoryLacks(world.log)
      ensures r.Ok? ==> dir.Some? && Addressed(dir.value, Last(run).value)
      ensures HonoursRetry(run) ==> !r.RefusedNonce()
    {
      var posted, sent := PostToResource(NewOrder(names));
      run := sent;
      if posted.Err? { return Err(posted.error), run; }
      assert run[|run| - 1] == Last(run).value;
      if posted.value.status != 200 && posted.value.status != 201 { return Err(Acme("")), run; }
      if posted.value.body.parsed.NotJson? { return Err(Crash), run; }
      r := Ok((posted.value.location, AsObject(posted.value.body.parsed)));
    }

    /** Has one authorization validated: nothing to do when it already is, else
        the challenge of the solver's kind is set up, announced and waited for. */
    method DoAuthz(url: Url, solver: Solver) returns (r: Result<()>, ghost run: seq<Event>)
      requires Valid() && kid != "" && solver.world == world
      modifies this, world, solver
      ensures Valid() && kid == old(kid) && old(calls) <= calls <= old(calls) + CALLS_PER_AUTHORIZATION
      ensures world.log == old(world.log) + run
      ensures Work(run, calls - old(calls), Owed(old(dir)), if r.Ok? then Owed(dir) else 0)
      ensures solver.records == old(solver.records) + Count(run).placed
      ensures r.Ok? ==> SeenValid(run, 0, |run|, url)
      ensures Challenged(run, [url], solver.kind, thumb)
      ensures r.Err? && !r.RefusedNonce() ==>
        AuthzExcuse(run, url, ChallengeType(solver.kind)) || DirectoryLacks(world.log)
      ensures HonoursRetry(run) ==> !r.RefusedNonce()
    {
      var got, fetched := SignedPost(url, PostAsGet, false);
      run := fetched;
      ghost var owed1 := if got.Ok? then Owed(dir) else 0;
      TrafficIsWork(fetched, PostAsGet, 1, Owed(old(dir)), owed1);
      Unchallenged(fetched, [url], solver.kind, thumb);
      if got.Err? { return Err(got.error), run; }
      assert run[|run| - 1] == Last(run).value && Answers(Last(run).value, url);
      var plan := ReadAuthz(got.value, solver.kind);
      if plan.Err? {
        assert AuthzBad(run[|run| - 1], url, ChallengeType(solver.kind));
        return Err(plan.error), run;
      }
      if plan.value.AlreadyValid? {
        assert Reports(run[|run| - 1], url, "valid");
        return Ok(()), run;
      }
      ghost var answered: seq<Event>;
      r, answered := Answer(url, plan.value.domain, plan.value.challenge, solver);
      run := fetched + answered;
      Assoc(old(world.log), fetched, answered);
      WorkThen(fetched, answered, 1, calls - old(calls) - 1, Owed(old(dir)), owed1, if r.Ok? then Owed(dir) else 0);
      ChallengedOne(fetched, answered, url, plan.value.challenge, solver.kind, thumb);
      AnswerExcuse(fetched, answered, url, plan.value, solver.kind);
      if r.Ok? { SeenValidShift(fetched, answered, 0, url); }
    }

    /** Sets the challenge up, tells the CA, and waits for the authorization. */
    method Answer(url: Url, domain: string, chal: Challenge, solver: Solver)
      returns (r: Result<()>, ghost run: seq<Event>)
      requires Valid() && kid != "" && solver.world == world
      modifies this, world, solver
      ensures Valid() && kid == old(kid) && old(calls) <= calls <= old(calls) + POLL_TRIES + 1
      ensures world.log == old(world.log) + run
      ensures Work(run, calls - old(calls), Owed(old(dir)), if r.Ok? then Owed(dir) else 0)
      ensures run != [] && run[0].Place?
              && run[0].artefact == ArtefactFor(solver.kind, domain, chal.token, chal.token + "." + thumb)
      ensures solver.records == old(solver.records) + Count(run).placed
      ensures forall j :: 0 < j < |run| ==> !run[j].Place?
      ensures forall j :: 0 < j < |run| && run[j].Post? && run[j].payload == ChallengeReady ==>
                run[0].outcome.Done? && chal.url == Some(run[j].url)
      ensures r.Ok? ==> SeenValid(run, 0, |run|, url)
      ensures r.Err? && !r.RefusedNonce() ==> chal.url.None? || PollExcuse(run, url) || DirectoryLacks(world.log)
      ensures HonoursRetry(run) ==> !r.RefusedNonce()
    {
      ghost var log := world.log;
      var keyAuth := chal.token + "." + thumb;
      var placed := solver.Setup(domain, chal.token, keyAuth);
      ghost var e := world.log[|log|];
      run := [e];
      CountOne(e);
      QuietKeeps(log, world.log, nonce, kid, dir);
      assert run[0] == e && (placed.Err? ==> Failing(run[0]));
      if placed.Err? { return Err(placed.error), run; }
      if chal.url.None? { return Err(Crash), run; }
      ghost var asked: seq<Event>;
      r, asked := Announce(url, chal.url.value);
      run := [e] + asked;
      Assoc(log, [e], asked);
      WorkThen([e], asked, 0, calls - old(calls), Owed(old(dir)), Owed(old(dir)), if r.Ok? then Owed(dir) else 0);
      CountConcat([e], asked);
      PollExcuseConcat([e], asked, url);
      assert forall j :: 0 < j < |run| ==> run[j] == asked[j - 1];
      if r.Ok? { SeenValidShift([e], asked, 0, url); }
    }

    method Announce(url: Url, challengeUrl: Url) returns (r: Result<()>, ghost run: seq<Event>)
      requires Valid() && kid != ""
      modifies this, world
      ensures Valid() && kid == old(kid) && old(calls) <= calls <= old(calls) + POLL_TRIES + 1
      ensures world.log == old(world.log) + run
      ensures Work(run, calls - old(calls), Owed(old(dir)), if r.Ok? then Owed(dir) else 0)
      ensures Count(run).placed == [] && NoPlace(run)
      ensures ToldOnlyTo(run, challengeUrl)
      ensures r.Ok? ==> SeenValid(run, 0, |run|, url)
      ensures r.Err? && !r.RefusedNonce() ==> PollExcuse(run, url) || DirectoryLacks(world.log)
      ensures HonoursRetry(run) ==> !r.RefusedNonce()
    {
      var told, first := SignedPost(challengeUrl, ChallengeReady, false);
      run := first;
      ghost var mid := if told.Ok? then Owed(dir) else 0;
      TrafficIsWork(first, ChallengeReady, 1, Owed(old(dir)), mid);
      if told.Err? { return Err(told.error), run; }
      var polled, rest := Poll(url);
      ghost var left := if polled.Ok? then Owed(dir) else 0;
      TrafficIsWork(rest, PostAsGet, calls - old(calls) - 1, mid, left);
      WorkThen(first, rest, 1, calls - old(calls) - 1, Owed(old(dir)), mid, left);
      run := first + rest;
      Assoc(old(world.log), first, rest);
      PollExcuseConcat(first, rest, url);
      AnnouncedTo(first, rest, challengeUrl);
      if polled.Err? { return Err(polled.error), run; }
      assert Reports(rest[|rest| - 1], url, "valid");
      SeenValidShift(first, rest, 0, url);
      r := Ok(());
    }

    /** Validates every authorization of the order, in its order. */
    method DoAuthorizations(urls: seq<Url>, solver: Solver) returns (r: Result<()>, ghost run: seq<Event>)
      requires Valid() && kid != "" && solver.world == world
      modifies this, world, solver
      ensures Valid() && kid == old(kid) && old(calls) <= calls <= old(calls) + CALLS_PER_AUTHORIZATION * |urls|
      ensures world.log == old(world.log) + run
      ensures Work(run, calls - old(calls), Owed(old(dir)), if r.Ok? then Owed(dir) else 0)
      ensures solver.records == old(solver.records) + Count(run).placed
      ensures r.Ok? ==> AllSeen(run, urls)
      ensures Challenged(run, urls, solver.kind, thumb)
      ensures r.Err? ==> exists n :: StoppedAt(run, urls, n, solver.kind, thumb)
      ensures r.Err? && !r.RefusedNonce() ==> SomeAuthzExcuse(run, urls, solver.kind) || DirectoryLacks(world.log)
      ensures HonoursRetry(run) ==> !r.RefusedNonce()
    {
      run := [];
      for i := 0 to |urls|
        invariant Valid() && kid == old(kid) && old(calls) <= calls <= old(calls) + CALLS_PER_AUTHORIZATION * i
        invariant world.log == old(world.log) + run
        invariant Work(run, calls - old(calls), Owed(old(dir)), Owed(dir))
        invariant solver.records == old(solver.records) + Count(run).placed
        invariant AllSeen(run, urls[..i])
        invariant Challenged(run, urls[..i], solver.kind, thumb)
      {
        ghost var before, mid, done := run, Owed(dir), calls - old(calls);
        var one, more := DoAuthz(urls[i], solver);
        run := before + more;
        WorkThen(before, more, done, calls - old(calls) - done, Owed(old(dir)), mid, if one.Ok? then Owed(dir) else 0);
        Assoc(old(world.log), before, more);
        Assoc(old(solver.records), Count(before).placed, Count(more).placed);
        if one.Err? {
          Stopped(before, more, urls, i, solver.kind, thumb);
          return one, run;
        }
        ChallengedConcat(before, more, urls[..i], [urls[i]], urls[..i + 1], solver.kind, thumb);
        AllSeenThen(before, more, urls[..i], urls[i]);
        assert urls[..i + 1] == urls[..i] + [urls[i]];
      }
      assert urls[..|urls|] == urls;
      r := Ok(());
    }

    /** The try block of issue with its finally: the authorizations, then the
        cleanup whatever happened; an exception of the cleanup replaces theirs. */
    method Authorize(order: Object, solver: Solver)
      returns (r: Result<()>, ghost work: seq<Event>, ghost cleaned: seq<Event>)
      requires Valid() && kid != "" && solver.world == world
      modifies this, world, solver
      ensures Valid() && kid == old(kid)
      ensures old(calls) <= calls <= old(calls) + CALLS_PER_AUTHORIZATION * Authorizations(order)
      ensures world.log == old(world.log) + work + cleaned
      ensures Work(work, calls - old(calls), Owed(old(dir)), if r.Ok? then Owed(dir) else 0)
      ensures forall j :: 0 <= j < |cleaned| ==> cleaned[j].Remove?
      ensures Count(cleaned) == Tally(0, 0, 0, [], Count(cleaned).removals)
      ensures CleanupTrace(old(solver.records) + Count(work).placed, Count(cleaned).removals)
      ensures r.Ok? ==> solver.records == []
      ensures r.Ok? ==> Targets(Count(cleaned).removals) == old(solver.records) + Count(work).placed
      ensures r.Ok? ==> order.authorizations.Some? && AllSeen(work, order.authorizations.value)
      ensures order.authorizations.Some? ==> Challenged(work, order.authorizations.value, solver.kind, thumb)
      ensures r.Err? && order.authorizations.Some? ==>
        Disturbed(cleaned) || exists n :: StoppedAt(work, order.authorizations.value, n, solver.kind, thumb)
      ensures r.Err? && !r.RefusedNonce() ==>
        order.authorizations.None? || SomeAuthzExcuse(work, order.authorizations.value, solver.kind)
        || Disturbed(cleaned) || DirectoryLacks(world.log)
      ensures HonoursRetry(work) ==> !r.RefusedNonce()
    {
      work := [];
      if order.authorizations.None? {
        r := Err(Crash);
      } else {
        r, work := DoAuthorizations(order.authorizations.value, solver);
      }
      ghost var log := world.log;
      var tidied: Result<()>;
      tidied, cleaned := solver.Cleanup();
      QuietKeeps(log, world.log, nonce, kid, dir);
      if DirectoryLacks(log) { DirectoryLacksLater(log, world.log); }
      if tidied.Err? { r := tidied; }
    }

    /** Finalizes the order, waits for it, and fetches the certificate. */
    method Finish(csr: Csr, order: Object, orderUrl: Url)
      returns (r: Result<(string, string)>, ghost fin: seq<Event>, ghost rest: seq<Event>)
      requires Valid() && kid != ""
      modifies this, world
      ensures Valid() && kid == old(kid) && old(calls) <= calls <= old(calls) + POLL_TRIES + 2
      ensures world.log == old(world.log) + (fin + rest)
      ensures fin != [] ==> order.finalize.Some? && Burst(fin, order.finalize.value, FinalizeCsr(csr.pem))
      ensures NoFinalize(rest)
      ensures Traffic(fin + rest, calls - old(calls), Owed(old(dir)), if r.Ok? then Owed(dir) else 0)
      ensures NoPlace(fin + rest) && NoRemove(fin + rest)
      ensures r.Ok? ==> Delivered(rest, orderUrl, r.value) && FinalizeAccepted(fin)
      ensures Unchallenging(fin + rest)
      ensures r.Err? && !r.RefusedNonce() ==>
        order.finalize.None? || OrderExcuse(fin + rest, orderUrl) || DirectoryLacks(world.log)
      ensures HonoursRetry(fin + rest) ==> !r.RefusedNonce()
    {
      rest := [];
      var sent: Result<()>;
      sent, fin := SendFinalize(csr, order);
      assert fin + rest == fin;
      if sent.Err? { return Err(sent.error), fin, rest; }
      ghost var mid, done := Owed(dir), calls - old(calls);
      r, rest := Collect(orderUrl);
      Assoc(old(world.log), fin, rest);
      TrafficThen(fin, rest, done, calls - old(calls) - done, Owed(old(dir)), mid, if r.Ok? then Owed(dir) else 0);
      OrderExcuseAfter(fin, rest, orderUrl);
    }

    method SendFinalize(csr: Csr, order: Object) returns (r: Result<()>, ghost fin: seq<Event>)
      requires Valid() && kid != ""
      modifies this, world
      ensures Valid() && kid == old(kid) && old(calls) <= calls <= old(calls) + 1
      ensures world.log == old(world.log) + fin
      ensures fin != [] ==> order.finalize.Some? && Burst(fin, order.finalize.value, FinalizeCsr(csr.pem))
      ensures Traffic(fin, calls - old(calls), Owed(old(dir)), if r.Ok? then Owed(dir) else 0)
      ensures NoPlace(fin) && NoRemove(fin)
      ensures r.Ok? ==> FinalizeAccepted(fin)
      ensures Unchallenging(fin)
      ensures r.Err? && !r.RefusedNonce() ==> order.finalize.None? || Disturbed(fin) || DirectoryLacks(world.log)
      ensures HonoursRetry(fin) ==> !r.RefusedNonce()
    {
      fin := [];
      if order.finalize.None? { return Err(Crash), fin; }
      r, fin := Convert();
      if r.Err? { return; }
      ghost var converted := fin;
      ghost var posted: seq<Event>;
      var sent: Result<Reply>;
      sent, posted := SignedPost(order.finalize.value, FinalizeCsr(csr.pem), false);
      fin := converted + posted;
      Assoc(old(world.log), converted, posted);
      ConvertedBurst(converted, posted, order.finalize.value, FinalizeCsr(csr.pem), Owed(old(dir)),
                     if sent.Ok? then Owed(dir) else 0);
      if sent.Err? { return Err(sent.error), fin; }
      assert fin[|fin| - 1] == posted[|posted| - 1] && IsFinalize(fin[|fin| - 1]);
      r := Ok(());
    }

    method Collect(orderUrl: Url) returns (r: Result<(string, string)>, ghost run: seq<Event>)
      requires Valid() && kid != ""
      modifies this, world
      ensures Valid() && kid == old(kid) && old(calls) <= calls <= old(calls) + POLL_TRIES + 1
      ensures world.log == old(world.log) + run
      ensures ForPayload(run, PostAsGet)
      ensures Traffic(run, calls - old(calls), Owed(old(dir)), if r.Ok? then Owed(dir) else 0)
      ensures r.Ok? ==> Delivered(run, orderUrl, r.value)
      ensures r.Err? && !r.RefusedNonce() ==> OrderExcuse(run, orderUrl) || DirectoryLacks(world.log)
      ensures HonoursRetry(run) ==> !r.RefusedNonce()
    {
      var polled, first := Poll(orderUrl);
      run := first;
      if polled.Err? {
        if PollExcuse(run, orderUrl) { PollIsExcuse(run, orderUrl, ""); }
        return Err(polled.error), run;
      }
      assert first[|first| - 1] == Last(first).value;
      if polled.value.certificate == "" {
        assert OrderBad(first[|first| - 1], orderUrl);
        return Err(Acme("")), run;
      }
      ghost var mid, done := Owed(dir), calls - old(calls);
      var got, rest := SignedPost(polled.value.certificate, PostAsGet, false);
      run := first + rest;
      Assoc(old(world.log), first, rest);
      TrafficThen(first, rest, done, 1, Owed(old(dir)), mid, if got.Ok? then Owed(dir) else 0);
      DisturbedConcat(first, rest);
      if got.Err? { return Err(got.error), run; }
      assert run[|first| - 1] == Last(first).value;
      assert run[|run| - 1] == Last(rest).value && Answers(run[|run| - 1], polled.value.certificate);
      r := SplitChain(got.value.body.pems);
    }

    /** Runs the full order for a CSR: the certificate and its chain, or the
        exception that ended the run. */
    method Issue(csr: Csr, solver: Solver)
      returns (r: Result<(string, string)>, ghost run: seq<Event>, ghost course: Course)
      requires Valid() && solver.world == world
      modifies this, world, solver
      ensures Valid()
      ensures world.log == old(world.log) + run
      ensures Orderly(run, course, csr.pem, old(solver.records))
      ensures course.Ordered? ==> csr.names.Some? && run[course.at].payload == NewOrder(csr.names.value)
      ensures Effort(run, calls - old(calls), Owed(old(dir)), 0)
      ensures calls <= old(calls) + if course.NoOrder? then 2
        else CALLS_PER_ORDER + CALLS_PER_AUTHORIZATION * Authorizations(course.order)
      ensures r.Ok? ==>
        && course.Ordered? && solver.records == []
        && Targets(Count(run).removals) == old(solver.records) + Count(run).placed
        && FinalizeAccepted(run) && Delivered(run, run[course.at].reply.location, r.value)
      ensures course.Ordered? && course.order.authorizations.Some? ==>
        Challenged(run, course.order.authorizations.value, solver.kind, thumb)
      ensures r.Err? && !r.RefusedNonce() ==>
        || csr.names.None? || DirectoryLacks(world.log) || OpenExcuse(run)
        || (course.Ordered? && FulfilExcuse(run, course.order, run[course.at].reply.location, solver.kind))
      ensures HonoursRetry(run) ==> !r.RefusedNonce()
    {
      course := NoOrder;
      var created, first := OpenOrder(csr);
      run := first;
      if created.Err? { return Err(created.error), run, course; }
      var (orderUrl, order) := created.value;
      ghost var calls1, mid := calls - old(calls), Owed(dir);
      ghost var body: seq<Event>, cleanup: nat;
      r, body, cleanup := Fulfil(csr, order, orderUrl, solver);
      OrderlyRun(first, body, cleanup, order, orderUrl, csr.pem, old(solver.records),
                 calls1, calls - old(calls) - calls1, Owed(old(dir)), mid);
      if r.Ok? {
        DeliveredLater(first, body, orderUrl, r.value);
        AcceptedLater(first, body, []);
        assert body + [] == body;
      }
      Assoc(old(world.log), first, body);
      course := Ordered(order, |first| - 1, |first| + cleanup);
      run := first + body;
      OpenExcuseConcat(first, body);
      FulfilExcuseAfter(first, body, order, orderUrl, solver.kind);
      if order.authorizations.Some? {
        Unchallenged(first, [], solver.kind, thumb);
        ChallengedConcat(first, body, [], order.authorizations.value, order.authorizations.value, solver.kind, thumb);
      }
      OrderUnusable(first, order);
    }

    /** The account, the names of the CSR, and an order for them. */
    method OpenOrder(csr: Csr) returns (r: Result<(Url, Object)>, ghost run: seq<Event>)
      requires Valid()
      modifies this, world
      ensures Valid() && old(calls) <= calls <= old(calls) + 2
      ensures world.log == old(world.log) + run
      ensures Work(run, calls - old(calls), Owed(old(dir)), if r.Ok? then Owed(dir) else 0)
      ensures NoPlace(run) && Count(run).placed == []
      ensures r.Ok? ==> kid != "" && JustOrdered(run, r.value.1, r.value.0)
      ensures r.Ok? ==> csr.names.Some? && Last(run).value.payload == NewOrder(csr.names.value)
      ensures Unchallenging(run)
      ensures r.Err? && !r.RefusedNonce() ==> csr.names.None? || OpenExcuse(run) || DirectoryLacks(world.log)
      ensures HonoursRetry(run) ==> !r.RefusedNonce()
    {
      var account, acct := EnsureAccount();
      run := acct;
      ghost var owed1 := if account.Ok? then Owed(dir) else 0;
      TrafficIsWork(acct, NewAccount, calls - old(calls), Owed(old(dir)), owed1);
      if account.Err? { return Err(account.error), run; }
      if csr.names.None? { return Err(Acme("")), run; }
      ghost var calls1 := calls - old(calls);
      var created, ordered := CreateOrder(csr.names.value);
      ghost var owed2 := if created.Ok? then Owed(dir) else 0;
      TrafficIsWork(ordered, NewOrder(csr.names.value), calls - old(calls) - calls1, owed1, owed2);
      WorkThen(acct, ordered, calls1, calls - old(calls) - calls1, Owed(old(dir)), owed1, owed2);
      run := acct + ordered;
      Assoc(old(world.log), acct, ordered);
      OpenExcuseConcat(acct, ordered);
      UnchallengingConcat(acct, ordered);
      r := created;
    }

    /** From the created order to the certificate. */
    method Fulfil(csr: Csr, order: Object, orderUrl: Url, solver: Solver)
      returns (r: Result<(string, string)>, ghost run: seq<Event>, ghost cleanup: nat)
      requires Valid() && kid != "" && solver.world == world
      modifies this, world, solver
      ensures Valid()
      ensures old(calls) <= calls <= old(calls) + CALLS_PER_ORDER - 2 + CALLS_PER_AUTHORIZATION * Authorizations(order)
      ensures world.log == old(world.log) + run
      ensures OrderlyBody(run, cleanup, order, csr.pem, old(solver.records))
      ensures Effort(run, calls - old(calls), Owed(old(dir)), 0)
      ensures r.Ok? ==> solver.records == []
      ensures r.Ok? ==> Targets(Count(run).removals) == old(solver.records) + Count(run).placed
      ensures r.Ok? ==> Delivered(run, orderUrl, r.value) && FinalizeAccepted(run)
      ensures order.authorizations.Some? ==> Challenged(run, order.authorizations.value, solver.kind, thumb)
      ensures r.Err? && !r.RefusedNonce() ==>
        order.authorizations.None? || order.finalize.None? || DirectoryLacks(world.log)
        || FulfilExcuse(run, order, orderUrl, solver.kind)
      ensures HonoursRetry(run) ==> !r.RefusedNonce()
    {
      var validated: Result<()>;
      ghost var work: seq<Event>, cleaned: seq<Event>;
      validated, work, cleaned := Validate(csr, order, orderUrl, solver);
      cleanup := |work|;
      run := work + cleaned;
      if validated.Err? { return Err(validated.error), run, cleanup; }
      ghost var mid, calls1 := Owed(dir), calls - old(calls);
      ghost var fin: seq<Event>, rest: seq<Event>;
      r, fin, rest := Finish(csr, order, orderUrl);
      ghost var end := fin + rest;
      Assoc(old(world.log), run, end);
      BodyFinished(work, cleaned, fin, rest, order, csr.pem, old(solver.records),
                   calls1, calls - old(calls) - calls1, Owed(old(dir)), mid, if r.Ok? then Owed(dir) else 0);
      BodyConcluded(run, fin, rest, order, orderUrl, solver.kind, thumb, r);
      run := run + end;
    }

    /** The authorizations and the cleanup, as the first part of an order's course. */
    method Validate(csr: Csr, order: Object, orderUrl: Url, solver: Solver)
      returns (r: Result<()>, ghost work: seq<Event>, ghost cleaned: seq<Event>)
      requires Valid() && kid != "" && solver.world == world
      modifies this, world, solver
      ensures Valid() && kid == old(kid)
      ensures old(calls) <= calls <= old(calls) + CALLS_PER_AUTHORIZATION * Authorizations(order)
      ensures world.log == old(world.log) + (work + cleaned)
      ensures OrderlyBody(work + cleaned, |work|, order, csr.pem, old(solver.records)) && NoFinalize(work + cleaned)
      ensures Effort(work + cleaned, calls - old(calls), Owed(old(dir)), if r.Ok? then Owed(dir) else 0)
      ensures r.Ok? ==> solver.records == [] && order.authorizations.Some?
      ensures r.Ok? ==> AllSeen(work, order.authorizations.value)
      ensures r.Ok? ==>
        Targets(Count(work + cleaned).removals) == old(solver.records) + Count(work + cleaned).placed
      ensures order.authorizations.Some? ==>
        Challenged(work + cleaned, order.authorizations.value, solver.kind, thumb)
      ensures r.Err? && !r.RefusedNonce() ==>
        order.authorizations.None? || DirectoryLacks(world.log)
        || FulfilExcuse(work + cleaned, order, orderUrl, solver.kind)
      ensures HonoursRetry(work + cleaned) ==> !r.RefusedNonce()
    {
      r, work, cleaned := Authorize(order, solver);
      Assoc(old(world.log), work, cleaned);
      BodyCleaned(work, cleaned, order, csr.pem, old(solver.records), calls - old(calls), Owed(old(dir)),
                  if r.Ok? then Owed(dir) else 0);
      CleanedChallenges(work, cleaned, order, orderUrl, solver.kind, thumb);
      if HonoursRetry(work + cleaned) { HonoursParts(work, cleaned); }
    }

    /** Revokes a certificate at the CA. */
    method Revoke(cert: string, reason: int) returns (r: Result<()>, ghost run: seq<Event>)
      requires Valid()
      modifies this, world
      ensures Valid()
      ensures world.log == old(world.log) + run
      ensures Traffic(run, calls - old(calls), Owed(old(dir)), 0) && calls <= old(calls) + 2
      ensures r.Ok? ==>
        && Last(run).Some? && Last(run).value.payload == RevokeCert(cert, reason)
        && Last(run).value.reply.Answer? && Last(run).value.reply.status < 400
      ensures r.Err? && !r.RefusedNonce() ==>
        OpenExcuse(run) || DirectoryLacks(world.log) || (dir.Some? && dir.value.revokeCert == "")
      ensures r.Ok? ==> dir.Some? && Addressed(dir.value, Last(run).value)
      ensures HonoursRetry(run) ==> !r.RefusedNonce()
    {
      var account, acct := EnsureAccount();
      run := acct;
      if account.Err? { return Err(account.error), run; }
      ghost var mid, calls1 := Owed(dir), calls - old(calls);
      var posted, sent := PostToResource(RevokeCert(cert, reason));
      run := acct + sent;
      TrafficThen(acct, sent, calls1, calls - old(calls) - calls1, Owed(old(dir)), mid,
                  if posted.Ok? then Owed(dir) else 0);
      Assoc(old(world.log), acct, sent);
      OpenExcuseConcat(acct, sent);
      r := if posted.Ok? then Ok(()) else Err(posted.error);
    }
  }
}
