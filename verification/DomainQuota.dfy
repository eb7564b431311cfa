/** The licence's cap on registrable domains (_enforce_domain_quota in
    backend/sign.py, over_quota in backend/domains.py): what holds over any run of
    signing requests whose cap may change. */
module DomainQuota {

  type Domains = set<string>

  datatype Quota = Quota(blocked: bool, union: Domains, offending: Domains)

  /** Whether signing for `wanted` would exceed the cap, and the set afterwards. */
  function OverQuota(wanted: Domains, current: Domains, cap: nat): Quota {
    var named := set d | d in wanted && d != "";
    var union := current + named;
    if cap == 0 || named <= current || |union| <= cap then Quota(false, union, {})
    else Quota(true, union, named - current)
  }

  /** A signing request: the domains its CSR names, and the cap at the time; 0 is
      uncapped. */
  datatype Request = Request(wanted: Domains, cap: nat)

  predicate Metered(r: Request) {
    r.cap != 0 && r.wanted != {}
  }

  predicate Refused(current: Domains, r: Request) {
    Metered(r) && OverQuota(r.wanted, current, r.cap).blocked
  }

  function AfterRequest(current: Domains, r: Request): Domains {
    if Metered(r) && !Refused(current, r) then OverQuota(r.wanted, current, r.cap).union else current
  }

  /** What becomes of a CSR sent for signing. */
  datatype Signing = Signed | Manual | NotEntitled | NoCsr | QuotaReached(offending: Domains) | BackendFailed

  class Licence {
    var licensed: Domains

    constructor ()
      ensures licensed == {}
    {
      licensed := {};
    }

    /** Refuses the request, or claims its domains. */
    method EnforceDomainQuota(wanted: Domains, cap: nat) returns (offending: Domains)
      requires "" !in wanted
      modifies this
      ensures licensed == AfterRequest(old(licensed), Request(wanted, cap))
      ensures offending != {} <==> Refused(old(licensed), Request(wanted, cap))
      ensures offending != {} <==> cap != 0 && !(wanted <= old(licensed)) && |old(licensed) + wanted| > cap
      ensures offending != {} ==> offending == wanted - old(licensed)
      ensures licensed == if offending == {} && cap != 0 then old(licensed) + wanted else old(licensed)
    {
      assert (set d | d in wanted && d != "") == wanted;
      if cap == 0 { return {}; }
      if wanted == {} { return {}; }
      var q := OverQuota(wanted, licensed, cap);
      if q.blocked {
        ghost var d :| d in wanted && d !in licensed;
        assert d in q.offending;
        return q.offending;
      }
      if q.union != licensed { licensed := q.union; }
      offending := {};
    }

    /** The gates of a signing, in order. Nothing is claimed before the quota gate, and
        a claim stays when the backend then fails. */
    method SignCsr(manual: bool, entitled: bool, isCsr: bool, wanted: Domains, cap: nat, backend: bool)
      returns (r: Signing)
      requires "" !in wanted
      modifies this
      ensures manual || !entitled || !isCsr ==> licensed == old(licensed) && r in {Manual, NotEntitled, NoCsr}
      ensures !manual && entitled && isCsr ==> licensed == AfterRequest(old(licensed), Request(wanted, cap))
      ensures r.QuotaReached? <==> !manual && entitled && isCsr && Refused(old(licensed), Request(wanted, cap))
      ensures r.Signed? && cap != 0 ==> wanted <= licensed
      ensures r.Manual? <==> manual
      ensures r.NotEntitled? <==> !manual && !entitled
      ensures r.NoCsr? <==> !manual && entitled && !isCsr
      ensures r.QuotaReached? <==>
        !manual && entitled && isCsr && cap != 0 && !(wanted <= old(licensed)) && |old(licensed) + wanted| > cap
      ensures r.Signed? || r.BackendFailed? <==> !manual && entitled && isCsr && !r.QuotaReached?
      ensures r.Signed? ==> backend
      ensures r.BackendFailed? ==> !backend
      ensures (r.Signed? || r.BackendFailed?) && cap != 0 ==> licensed == old(licensed) + wanted
      ensures (!r.Signed? && !r.BackendFailed?) || cap == 0 ==> licensed == old(licensed)
    {
      if manual { return Manual; }
      if !entitled { return NotEntitled; }
      if !isCsr { return NoCsr; }
      OneRequest(licensed, Request(wanted, cap));
      assert wanted == {} ==> licensed + wanted == licensed;
      var offending := EnforceDomainQuota(wanted, cap);
      r := if offending != {} then QuotaReached(offending) else if backend then Signed else BackendFailed;
    }
  }

  // --------------------------------------------------------------------------------- runs

  function AfterAll(current: Domains, run: seq<Request>): Domains {
    if run == [] then current else AfterRequest(AfterAll(current, run[..|run| - 1]), run[|run| - 1])
  }

  function LargestCap(run: seq<Request>): nat {
    if run == [] then 0
    else
      var before, last := LargestCap(run[..|run| - 1]), run[|run| - 1].cap;
      if last > before then last else before
  }

  lemma OneRequest(current: Domains, r: Request)
    requires "" !in r.wanted
    ensures current <= AfterRequest(current, r)
    ensures AfterRequest(current, r) == current || |AfterRequest(current, r)| <= r.cap
    ensures Metered(r) && !Refused(current, r) ==> r.wanted <= AfterRequest(current, r)
    ensures Refused(current, r) ==> AfterRequest(current, r) == current
    ensures Refused(current, r) <==> Metered(r) && !(r.wanted <= current) && |current + r.wanted| > r.cap
  {
    assert (set d | d in r.wanted && d != "") == r.wanted;
    if r.wanted <= current { assert current + r.wanted == current; }
  }

  predicate Named(run: seq<Request>) {
    forall i :: 0 <= i < |run| ==> "" !in run[i].wanted
  }

  /** The set only grows, and never past the larger of its first size and the
      largest cap seen. */
  lemma {:induction false} LicensedWithinCap(current: Domains, run: seq<Request>)
    requires Named(run)
    ensures current <= AfterAll(current, run)
    ensures |AfterAll(current, run)| <= if |current| > LargestCap(run) then |current| else LargestCap(run)
  {
    if run == [] {
    } else {
      LicensedWithinCap(current, run[..|run| - 1]);
      OneRequest(AfterAll(current, run[..|run| - 1]), run[|run| - 1]);
    }
  }

  /** A request passed under a cap is covered for good: whatever follows, and however
      low the cap is later, signing for the same domains passes. */
  lemma CoveredForGood(current: Domains, r: Request, later: seq<Request>, again: Request)
    requires "" !in r.wanted && Named(later) && Metered(r) && !Refused(current, r)
    requires again.wanted <= r.wanted
    ensures again.wanted <= AfterAll(AfterRequest(current, r), later)
    ensures !Refused(AfterAll(AfterRequest(current, r), later), again)
  {
    OneRequest(current, r);
    LicensedWithinCap(AfterRequest(current, r), later);
    OneRequest(AfterAll(AfterRequest(current, r), later), again);
  }

  // ----------------------------------------------------------------- requests that overlap

  /** The set is read and written back in separate statements. This is the store after
      the write of a request that read `read`; it writes only when it adds a domain. */
  function Written(read: Domains, stored: Domains, r: Request): Domains {
    if Metered(r) && !Refused(read, r) && AfterRequest(read, r) != read then AfterRequest(read, r) else stored
  }

  datatype Turn = Read(who: nat) | Write(who: nat)

  /** The store, and what each request has read. */
  datatype Store = Store(stored: Domains, seen: map<nat, Domains>)

  function AfterTurn(s: Store, t: Turn, requests: seq<Request>): Store {
    match t
    case Read(i) => s.(seen := s.seen[i := s.stored])
    case Write(i) =>
      if i < |requests| && i in s.seen then s.(stored := Written(s.seen[i], s.stored, requests[i])) else s
  }

  function AfterTurns(s: Store, turns: seq<Turn>, requests: seq<Request>): Store {
    if turns == [] then s
    else AfterTurn(AfterTurns(s, turns[..|turns| - 1], requests), turns[|turns| - 1], requests)
  }

  ghost predicate StoreWithin(s: Store, most: nat) {
    |s.stored| <= most && forall i :: i in s.seen ==> |s.seen[i]| <= most
  }

  lemma {:induction false} CapsWithin(requests: seq<Request>, i: nat)
    requires i < |requests|
    ensures requests[i].cap <= LargestCap(requests)
  {
    if i == |requests| - 1 {
    } else {
      CapsWithin(requests[..|requests| - 1], i);
    }
  }

  /** Whatever the interleaving of the reads and writes, the set stored never exceeds
      the larger of its first size and the largest cap. */
  lemma {:induction false} InterleavedWithinCap(s: Store, turns: seq<Turn>, requests: seq<Request>, most: nat)
    requires Named(requests) && StoreWithin(s, most) && LargestCap(requests) <= most
    ensures StoreWithin(AfterTurns(s, turns, requests), most)
  {
    if turns == [] {
    } else {
      var before, t := AfterTurns(s, turns[..|turns| - 1], requests), turns[|turns| - 1];
      InterleavedWithinCap(s, turns[..|turns| - 1], requests, most);
      if t.Write? && t.who < |requests| && t.who in before.seen {
        OneRequest(before.seen[t.who], requests[t.who]);
        CapsWithin(requests, t.who);
      }
    }
  }

  /** Two requests read the set and pass, then write one after the other. */
  function Overlapped(current: Domains, a: Request, b: Request): Domains {
    AfterTurns(Store(current, map[]), [Read(0), Read(1), Write(0), Write(1)], [a, b]).stored
  }

  lemma OverlappedWrites(current: Domains, a: Request, b: Request)
    ensures Overlapped(current, a, b) == Written(current, Written(current, current, a), b)
  {
    var s, both := Store(current, map[]), [a, b];
    var t1, t2, t3 := [Read(0)], [Read(0), Read(1)], [Read(0), Read(1), Write(0)];
    assert t1[..0] == [] && t2[..1] == t1 && t3[..2] == t2;
    assert [Read(0), Read(1), Write(0), Write(1)][..3] == t3;
    var s1 := AfterTurn(s, Read(0), both);
    var s2 := AfterTurn(s1, Read(1), both);
    assert AfterTurns(s, t1, both) == s1;
    assert AfterTurns(s, t2, both) == s2;
    assert AfterTurns(s, t3, both) == AfterTurn(s2, Write(0), both);
  }

  /** The claim of the request that writes first survives if and only if the other adds
      no domain, or covers it anyway; the claim of the last one always does. */
  lemma OverlapKeepsClaim(current: Domains, a: Request, b: Request)
    requires "" !in a.wanted && "" !in b.wanted
    requires Metered(a) && !Refused(current, a) && Metered(b) && !Refused(current, b)
    ensures a.wanted <= Overlapped(current, a, b) <==> b.wanted <= current || a.wanted <= current + b.wanted
    ensures b.wanted <= Overlapped(current, a, b)
  {
    OverlappedWrites(current, a, b);
    OneRequest(current, a);
    OneRequest(current, b);
    assert AfterRequest(current, a) == current + a.wanted by { Claimed(current, a); }
    assert AfterRequest(current, b) == current + b.wanted by { Claimed(current, b); }
  }

  lemma Claimed(current: Domains, r: Request)
    requires "" !in r.wanted && Metered(r) && !Refused(current, r)
    ensures AfterRequest(current, r) == current + r.wanted
  {
    assert (set d | d in r.wanted && d != "") == r.wanted;
  }

  /** Two first requests under a cap of one both pass, for different domains, and the
      later write forgets the other's claim. */
  lemma OverlappingClaims(a: string, b: string)
    requires a != b && a != "" && b != ""
    ensures !Refused({}, Request({a}, 1)) && !Refused({}, Request({b}, 1))
    ensures !({a} <= Overlapped({}, Request({a}, 1), Request({b}, 1)))
  {
    OneRequest({}, Request({a}, 1));
    OneRequest({}, Request({b}, 1));
    assert {} + {a} == {a} && {} + {b} == {b};
    OverlapKeepsClaim({}, Request({a}, 1), Request({b}, 1));
  }
}
