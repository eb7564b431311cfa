/** What an ACME client run looks like from outside: every request and its
    reply, and every challenge artefact put in place or removed, in order.
    The properties the client keeps are predicates on this log. */
module AcmeLog {
  import opened Wrappers

  type Url = string

  // Absent and empty strings are alike to the client (both are falsy), so an
  // absent header or field is the empty string.
  datatype Challenge = Challenge(kind: string, token: string, url: Option<Url>)

  datatype Object = Object(
    problem: string,
    status: string,
    authorizations: Option<seq<Url>>,
    finalize: Option<Url>,
    certificate: Url,
    domain: Option<string>,
    challenges: Option<seq<Challenge>>)

  datatype Directory = Directory(
    newNonce: Option<Url>, newAccount: Option<Url>, newOrder: Option<Url>, revokeCert: Url)

  datatype Parsed = NotJson | NotObject | Json(obj: Object)

  /** A response body under the three readings the client makes of it. */
  datatype Body = Body(parsed: Parsed, directory: Option<Directory>, pems: seq<string>)

  datatype Reply =
    | Answer(status: nat, nonce: string, location: Url, body: Body)
    | Unreachable      // URLError, raised again as AcmeError
    | Broken           // any other exception: a read timeout, a malformed URL

  datatype Payload =
    | PostAsGet
    | NewAccount
    | NewOrder(names: seq<string>)
    | ChallengeReady
    | FinalizeCsr(csr: string)
    | RevokeCert(cert: string, reason: int)

  datatype Auth = Jwk | Kid(kid: Url)

  /** A TXT record (its value named by the text the digest is taken of) or a
      file under the webroot. */
  datatype Artefact = Txt(name: string, keyAuthorization: string) | File(path: string)

  /** How an update of the zone or the webroot ended: carried out, refused with
      the error the solver expects, or any other exception. */
  datatype Outcome = Done | Refused(tookEffect: bool) | Died(tookEffect: bool)

  datatype Event =
    | Get(reply: Reply)
    | Head(reply: Reply)
    | Post(url: Url, payload: Payload, nonce: string, auth: Auth, reply: Reply)
    | Place(artefact: Artefact, outcome: Outcome)
    | Remove(artefact: Artefact, outcome: Outcome)
    | Tool(worked: bool)      // an openssl call

  function EndsWith(s: string, suffix: string): bool {
    |suffix| <= |s| && s[|s| - |suffix|..] == suffix
  }

  predicate IsBadNonce(problem: string) { EndsWith(problem, ":badNonce") }

  lemma BadNonceNamed(problem: string)
    ensures IsBadNonce(problem) <==> exists namespace :: problem == namespace + ":badNonce"
  {
    if IsBadNonce(problem) { assert problem == problem[..|problem| - 9] + ":badNonce"; }
  }

  // ------------------------------------------------------------------ counting

  /** Requests of each kind, the artefacts put in place, and the attempts at
      removal with how each ended, all in order. */
  datatype Tally = Tally(
    gets: nat, heads: nat, posts: nat,
    placed: seq<Artefact>, removals: seq<(Artefact, Outcome)>)

  function Add(t: Tally, e: Event): Tally {
    match e
    case Get(_) => t.(gets := t.gets + 1)
    case Head(_) => t.(heads := t.heads + 1)
    case Post(_, _, _, _, _) => t.(posts := t.posts + 1)
    case Place(a, o) => if o.Done? then t.(placed := t.placed + [a]) else t
    case Remove(a, o) => t.(removals := t.removals + [(a, o)])
    case Tool(_) => t
  }

  function Count(log: seq<Event>): Tally {
    if log == [] then Tally(0, 0, 0, [], [])
    else Add(Count(log[..|log| - 1]), log[|log| - 1])
  }

  function Targets(removals: seq<(Artefact, Outcome)>): (r: seq<Artefact>)
    ensures |r| == |removals|
    ensures forall i :: 0 <= i < |r| ==> r[i] == removals[i].0
  {
    seq(|removals|, i requires 0 <= i < |removals| => removals[i].0)
  }

  lemma CountAppend(log: seq<Event>, e: Event)
    ensures Count(log + [e]) == Add(Count(log), e)
  {
    assert (log + [e])[..|log + [e]| - 1] == log;
  }

  function Sum(s: Tally, t: Tally): Tally {
    Tally(s.gets + t.gets, s.heads + t.heads, s.posts + t.posts,
          s.placed + t.placed, s.removals + t.removals)
  }

  lemma SumAdd(s: Tally, t: Tally, e: Event)
    ensures Sum(s, Add(t, e)) == Add(Sum(s, t), e)
  {
  }

  lemma {:induction false} CountConcat(a: seq<Event>, b: seq<Event>)
    ensures Count(a + b) == Sum(Count(a), Count(b))
  {
    if b == [] {
      assert a + b == a;
    } else {
      var b', e := b[..|b| - 1], b[|b| - 1];
      assert a + b == (a + b') + [e];
      CountAppend(a + b', e);
      CountConcat(a, b');
      SumAdd(Count(a), Count(b'), e);
    }
  }

  lemma CountConcatParts(a: seq<Event>, b: seq<Event>)
    ensures Count(a + b).gets == Count(a).gets + Count(b).gets
    ensures Count(a + b).heads == Count(a).heads + Count(b).heads
    ensures Count(a + b).posts == Count(a).posts + Count(b).posts
    ensures Count(a).placed == [] ==> Count(a + b).placed == Count(b).placed
    ensures Count(b).placed == [] ==> Count(a + b).placed == Count(a).placed
    ensures Count(a).removals == [] ==> Count(a + b).removals == Count(b).removals
    ensures Count(b).removals == [] ==> Count(a + b).removals == Count(a).removals
  {
    CountConcat(a, b);
  }

  lemma CountOne(e: Event)
    ensures Count([e]) == Add(Tally(0, 0, 0, [], []), e)
  {
    assert [e][..0] == [];
  }

  // -------------------------------------------------------------------- nonces

  predicate Gives(e: Event, nonce: string) {
    nonce != "" && (e.Head? || e.Post?) && e.reply.Answer? && e.reply.nonce == nonce
  }

  /** The nonce came with an event after which no request was signed. */
  ghost predicate Unspent(log: seq<Event>, nonce: string) {
    exists i :: 0 <= i < |log| && Gives(log[i], nonce) && NoPostIn(log, i + 1, |log|)
  }

  ghost predicate NoPostIn(log: seq<Event>, lo: int, hi: int) {
    forall k :: lo <= k < hi && 0 <= k < |log| ==> !log[k].Post?
  }

  predicate PostAt(log: seq<Event>, j: int) { 0 <= j < |log| && log[j].Post? }

  ghost predicate NoncesUnspent(log: seq<Event>) {
    forall j {:trigger PostAt(log, j)} :: PostAt(log, j) ==> Unspent(log[..j], log[j].nonce)
  }

  /** Section 6.5 of RFC 8555: a server hands out each nonce once. */
  ghost predicate HandedOutOnce(log: seq<Event>) {
    forall i, j, n :: 0 <= i < j < |log| && Gives(log[i], n) ==> !Gives(log[j], n)
  }

  /** If the server never repeats a nonce, no nonce is signed into two requests. */
  lemma NonceSignedOnce(log: seq<Event>, i: nat, j: nat)
    requires NoncesUnspent(log) && HandedOutOnce(log)
    requires i < j && PostAt(log, i) && PostAt(log, j)
    ensures log[i].nonce != log[j].nonce
  {
    var a :| 0 <= a < i && Gives(log[..i][a], log[i].nonce);
    var b :| 0 <= b < j && Gives(log[..j][b], log[j].nonce) && NoPostIn(log[..j], b + 1, j);
    assert log[..i][a] == log[a] && log[..j][b] == log[b];
    assert log[..j][i].Post?;
    assert i <= b;
  }

  predicate BadNonce(e: Event) {
    e.Post? && e.reply.Answer? && e.reply.status >= 400
    && e.reply.body.parsed.Json? && IsBadNonce(e.reply.body.parsed.obj.problem)
  }

  /** Section 6.5 of RFC 8555: a badNonce error carries a fresh nonce, and the
      request signed with that nonce is not refused for its nonce again. */
  ghost predicate HonoursRetry(log: seq<Event>) {
    forall i {:trigger BadNonceAt(log, i)} :: BadNonceAt(log, i) ==>
      && log[i].reply.nonce != ""
      && forall j {:trigger PostAt(log, j)} ::
           i < j && PostAt(log, j) && log[j].nonce == log[i].reply.nonce ==> !BadNonce(log[j])
  }

  predicate BadNonceAt(log: seq<Event>, i: int) { 0 <= i < |log| && BadNonce(log[i]) }

  // --------------------------------------------------------------- account ids

  predicate OpensAccount(e: Event, kid: Url) {
    e.Post? && e.payload.NewAccount? && e.reply.Answer?
    && (e.reply.status == 200 || e.reply.status == 201) && e.reply.location == kid
  }

  ghost predicate AccountKnown(log: seq<Event>, kid: Url) {
    exists i :: 0 <= i < |log| && OpensAccount(log[i], kid)
  }

  /** Section 6.2 of RFC 8555: newAccount carries the key itself; every other
      request a non-empty account URL, one the server gave out before. */
  ghost predicate KeyIdsGiven(log: seq<Event>) {
    forall j {:trigger PostAt(log, j)} :: PostAt(log, j) ==>
      if log[j].payload.NewAccount? then log[j].auth == Jwk
      else log[j].auth.Kid? && log[j].auth.kid != "" && AccountKnown(log[..j], log[j].auth.kid)
  }

  // -------------------------------------------------------------------- orders

  /** The server reported `status` for the object at `url`. */
  predicate Reports(e: Event, url: Url, status: string) {
    e.Post? && e.url == url && e.payload == PostAsGet && e.reply.Answer? && e.reply.status < 400
    && e.reply.body.parsed.Json? && e.reply.body.parsed.obj.status == status
  }

  ghost predicate SeenValid(log: seq<Event>, lo: int, hi: int, url: Url) {
    exists i :: lo <= i < hi && 0 <= i < |log| && Reports(log[i], url, "valid")
  }

  /** JSON that is no object has none of the fields. */
  function AsObject(parsed: Parsed): Object {
    if parsed.Json? then parsed.obj else Object("", "", None, None, "", None, None)
  }

  predicate CreatesOrder(e: Event, order: Object) {
    e.Post? && e.payload.NewOrder? && e.reply.Answer?
    && (e.reply.status == 200 || e.reply.status == 201)
    && !e.reply.body.parsed.NotJson? && AsObject(e.reply.body.parsed) == order
  }

  predicate IsFinalize(e: Event) { e.Post? && e.payload.FinalizeCsr? }

  /** The finalize request for `order`, created at `at`, carries the CSR and is
      sent only when every authorization the order lists has been reported
      valid, and again only after a badNonce refusal. */
  ghost predicate FinalizeGuarded(log: seq<Event>, at: nat, order: Object, csr: string) {
    forall j :: at < j < |log| && IsFinalize(log[j]) ==>
      && order.authorizations.Some? && order.finalize == Some(log[j].url)
      && log[j].payload == FinalizeCsr(csr)
      && (forall u :: u in order.authorizations.value ==> SeenValid(log, at + 1, j, u))
      && (forall i :: at < i < j && IsFinalize(log[i]) ==> BadNonce(log[i]))
  }

  ghost predicate FinalizeAccepted(log: seq<Event>) {
    exists f :: 0 <= f < |log| && IsFinalize(log[f]) && log[f].reply.Answer? && log[f].reply.status < 400
  }

  // ------------------------------------------------------------- what goes wrong

  /** The event itself failed; a badNonce refusal is not counted, as it can be retried. */
  predicate Failing(e: Event) {
    match e
    case Get(reply) => !(reply.Answer? && reply.status == 200 && reply.body.directory.Some?)
    case Head(reply) => !(reply.Answer? && reply.nonce != "")
    case Post(_, _, _, _, reply) => !(reply.Answer? && reply.status < 400) && !BadNonce(e)
    case Place(_, o) => !o.Done?
    case Remove(_, o) => o.Died?
    case Tool(worked) => !worked
  }

  ghost predicate Disturbed(run: seq<Event>) {
    exists i :: 0 <= i < |run| && Failing(run[i])
  }

  predicate Lacks(d: Directory) {
    d.newNonce.None? || d.newAccount.None? || d.newOrder.None?
  }

  /** The CA gave a directory without one of the addresses every order needs. */
  ghost predicate DirectoryLacks(log: seq<Event>) {
    exists i :: 0 <= i < |log| && log[i].Get? && log[i].reply.Answer?
                && log[i].reply.body.directory.Some? && Lacks(log[i].reply.body.directory.value)
  }

  /** The request went to the address the directory lists for its kind. */
  predicate Addressed(d: Directory, e: Event) {
    e.Post?
    && (e.payload.NewAccount? ==> d.newAccount == Some(e.url))
    && (e.payload.NewOrder? ==> d.newOrder == Some(e.url))
    && (e.payload.RevokeCert? ==> d.revokeCert == e.url != "")
  }

  /** A newAccount request taken without giving an account. */
  predicate NoAccount(e: Event) {
    e.Post? && e.payload.NewAccount? && e.reply.Answer? && e.reply.status < 400
    && !(e.reply.status in {200, 201} && e.reply.location != "")
  }

  /** A newOrder request taken without giving a usable order. */
  predicate NoOrderGiven(e: Event) {
    e.Post? && e.payload.NewOrder? && e.reply.Answer? && e.reply.status < 400
    && !(e.reply.status in {200, 201} && e.reply.body.parsed.Json?
         && e.reply.body.parsed.obj.authorizations.Some? && e.reply.body.parsed.obj.finalize.Some?)
  }

  /** The object at the address was read. */
  predicate Answers(e: Event, url: Url) {
    e.Post? && e.url == url && e.payload == PostAsGet && e.reply.Answer? && e.reply.status < 400
  }

  /** A challenge of the kind can be answered. */
  predicate Usable(o: Object, kind: string) {
    o.domain.Some? && o.challenges.Some?
    && (exists c :: c in o.challenges.value && c.kind == kind)
    && (forall c :: c in o.challenges.value && c.kind == kind ==> c.url.Some?)
  }

  /** An authorization was read that is invalid, or not valid and cannot be answered. */
  predicate AuthzBad(e: Event, url: Url, kind: string) {
    Answers(e, url)
    && !(e.reply.body.parsed.Json?
         && (e.reply.body.parsed.obj.status == "valid"
             || (e.reply.body.parsed.obj.status != "invalid" && Usable(e.reply.body.parsed.obj, kind))))
  }

  /** The order was read invalid, or valid without a certificate. */
  predicate OrderBad(e: Event, url: Url) {
    Answers(e, url)
    && !(e.reply.body.parsed.Json? && e.reply.body.parsed.obj.status != "invalid"
         && (e.reply.body.parsed.obj.status == "valid" ==> e.reply.body.parsed.obj.certificate != ""))
  }

  /** The object was read neither valid nor invalid. */
  predicate StillWaiting(e: Event, url: Url) {
    Answers(e, url) && e.reply.body.parsed.Json? && e.reply.body.parsed.obj.status !in {"valid", "invalid"}
  }

  /** Of the first n events, those that read the object found it waiting. */
  ghost predicate WaitingFor(run: seq<Event>, url: Url, n: int) {
    forall j :: 0 <= j < n && j < |run| && Answers(run[j], url) ==> StillWaiting(run[j], url)
  }

  function Waits(run: seq<Event>, url: Url): nat {
    if run == [] then 0 else Waits(run[..|run| - 1], url) + if StillWaiting(run[|run| - 1], url) then 1 else 0
  }

  lemma {:induction false} WaitsConcat(a: seq<Event>, b: seq<Event>, url: Url)
    ensures Waits(a + b, url) == Waits(a, url) + Waits(b, url)
  {
    if b == [] {
      assert a + b == a;
    } else {
      assert (a + b)[..|a + b| - 1] == a + b[..|b| - 1];
      WaitsConcat(a, b[..|b| - 1], url);
    }
  }

  /** The object was read invalid, or could not be read. */
  predicate PollBad(e: Event, url: Url) {
    Answers(e, url) && !(e.reply.body.parsed.Json? && e.reply.body.parsed.obj.status != "invalid")
  }

  /** Why a wait for an object ended: something failed, it was invalid, or it was still
      waiting at 20 reads. */
  ghost predicate PollExcuse(run: seq<Event>, url: Url) {
    Disturbed(run) || Waits(run, url) >= 20 || exists i :: 0 <= i < |run| && PollBad(run[i], url)
  }

  /** Why an authorization could not be had: something failed, it could not be answered,
      or it was still waiting at 20 reads. */
  ghost predicate AuthzExcuse(run: seq<Event>, url: Url, kind: string) {
    Disturbed(run) || Waits(run, url) >= 20 || exists i :: 0 <= i < |run| && AuthzBad(run[i], url, kind)
  }

  /** A certificate was read, at the address a valid order gave, that holds none. */
  ghost predicate CertificateEmpty(run: seq<Event>, url: Url) {
    exists p, q :: 0 <= p < q < |run| && Reports(run[p], url, "valid")
      && Answers(run[q], run[p].reply.body.parsed.obj.certificate) && run[q].reply.body.pems == []
  }

  ghost predicate OrderExcuse(run: seq<Event>, url: Url) {
    Disturbed(run) || Waits(run, url) >= 20 || CertificateEmpty(run, url)
    || exists i :: 0 <= i < |run| && OrderBad(run[i], url)
  }

  lemma DisturbedConcat(a: seq<Event>, b: seq<Event>)
    ensures Disturbed(a) || Disturbed(b) ==> Disturbed(a + b)
  {
    assert forall i :: 0 <= i < |a| ==> (a + b)[i] == a[i];
    assert forall i :: 0 <= i < |b| ==> (a + b)[|a| + i] == b[i];
    if Disturbed(a) {
      var i :| 0 <= i < |a| && Failing(a[i]);
      assert Failing((a + b)[i]);
    } else if Disturbed(b) {
      var i :| 0 <= i < |b| && Failing(b[i]);
      assert Failing((a + b)[|a| + i]);
    }
  }

  lemma AuthzExcuseConcat(a: seq<Event>, b: seq<Event>, url: Url, kind: string)
    ensures AuthzExcuse(a, url, kind) || AuthzExcuse(b, url, kind) ==> AuthzExcuse(a + b, url, kind)
  {
    DisturbedConcat(a, b);
    WaitsConcat(a, b, url);
    if exists i :: 0 <= i < |a| && AuthzBad(a[i], url, kind) {
      var i :| 0 <= i < |a| && AuthzBad(a[i], url, kind);
      assert (a + b)[i] == a[i];
    } else if exists i :: 0 <= i < |b| && AuthzBad(b[i], url, kind) {
      var i :| 0 <= i < |b| && AuthzBad(b[i], url, kind);
      assert (a + b)[|a| + i] == b[i];
    }
  }

  lemma PollIsExcuse(run: seq<Event>, url: Url, kind: string)
    requires PollExcuse(run, url)
    ensures AuthzExcuse(run, url, kind) && OrderExcuse(run, url)
  {
    if exists i :: 0 <= i < |run| && PollBad(run[i], url) {
      var i :| 0 <= i < |run| && PollBad(run[i], url);
      assert AuthzBad(run[i], url, kind) && OrderBad(run[i], url);
    }
  }

  lemma PollExcuseConcat(a: seq<Event>, b: seq<Event>, url: Url)
    ensures PollExcuse(a, url) || PollExcuse(b, url) ==> PollExcuse(a + b, url)
  {
    DisturbedConcat(a, b);
    WaitsConcat(a, b, url);
    if exists i :: 0 <= i < |a| && PollBad(a[i], url) {
      var i :| 0 <= i < |a| && PollBad(a[i], url);
      assert (a + b)[i] == a[i];
    } else if exists i :: 0 <= i < |b| && PollBad(b[i], url) {
      var i :| 0 <= i < |b| && PollBad(b[i], url);
      assert (a + b)[|a| + i] == b[i];
    }
  }

  lemma OrderExcuseAfter(a: seq<Event>, b: seq<Event>, url: Url)
    ensures OrderExcuse(b, url) ==> OrderExcuse(a + b, url)
  {
    DisturbedConcat(a, b);
    WaitsConcat(a, b, url);
    var all := a + b;
    if CertificateEmpty(b, url) {
      var p, q :| 0 <= p < q < |b| && Reports(b[p], url, "valid")
        && Answers(b[q], b[p].reply.body.parsed.obj.certificate) && b[q].reply.body.pems == [];
      assert all[|a| + p] == b[p] && all[|a| + q] == b[q];
    } else if exists i :: 0 <= i < |b| && OrderBad(b[i], url) {
      var i :| 0 <= i < |b| && OrderBad(b[i], url);
      assert OrderBad(all[|a| + i], url);
    }
  }

  lemma DirectoryLacksLater(log: seq<Event>, later: seq<Event>)
    requires log <= later && DirectoryLacks(log)
    ensures DirectoryLacks(later)
  {
    var i :| 0 <= i < |log| && log[i].Get? && log[i].reply.Answer?
      && log[i].reply.body.directory.Some? && Lacks(log[i].reply.body.directory.value);
    assert later[i] == log[i];
  }

  // ------------------------------------------------------------ the zone itself

  /** The records and files in place after the events, starting from `zone`. */
  function ZoneAfter(zone: set<Artefact>, log: seq<Event>): set<Artefact> {
    if log == [] then zone
    else
      var before := ZoneAfter(zone, log[..|log| - 1]);
      match log[|log| - 1]
      case Place(a, o) => if o.Done? || o.tookEffect then before + {a} else before
      case Remove(a, o) => if o.Done? || o.tookEffect then before - {a} else before
      case _ => before
  }
}
