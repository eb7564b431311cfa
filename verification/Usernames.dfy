/** User names (derive_username and _upsert_user in backend/app.py, auth_register in
    backend/routes_auth.py, user creation and renaming in backend/routes_admin.py):
    the name found is the smallest free one in the whole table, in the username
    column and among the keys "local:<name>", and rows never share a name. */
module Usernames {
  import opened Wrappers
  import opened Text

  datatype User = User(username: Option<string>)

  /** The users table, keyed by distinguished name. */
  type Table = map<string, User>

  const LOCAL := "local:"

  /** The names a row occupies: its username, and the name in a local key. */
  function Names(dn: string, u: User): set<string> {
    (if u.username.Some? && u.username.value != "" then {u.username.value} else {})
    + (if LOCAL <= dn then {dn[6..]} else {})
  }

  predicate FreeIn(t: Table, name: string) {
    forall dn :: dn in t ==> name !in Names(dn, t[dn])
  }

  /** No two rows occupy the same name. */
  predicate Distinct(t: Table) {
    forall a, b :: a in t && b in t && a != b ==> Names(a, t[a]) !! Names(b, t[b])
  }

  // ------------------------------------------------------------------------------ decimals

  function Digit(n: nat): char
    requires n < 10
  {
    ('0' as int + n) as char
  }

  function Decimal(n: nat): (s: string)
    ensures s != "" && (|s| == 1 <==> n < 10)
  {
    if n < 10 then [Digit(n)] else Decimal(n / 10) + [Digit(n % 10)]
  }

  /** The number a string of digits stands for. */
  function Value(s: string): int {
    if s == "" then 0 else Value(s[..|s| - 1]) * 10 + (s[|s| - 1] as int - '0' as int)
  }

  /** Numbers are written in decimal: the digits read back as the number. */
  lemma {:induction false} DecimalReads(n: nat)
    ensures Value(Decimal(n)) == n
    ensures forall i :: 0 <= i < |Decimal(n)| ==> '0' <= Decimal(n)[i] <= '9'
    ensures n > 0 ==> Decimal(n)[0] != '0'
  {
    var s := Decimal(n);
    if n < 10 {
      assert s[..|s| - 1] == "";
    } else {
      assert s[..|s| - 1] == Decimal(n / 10);
      DecimalReads(n / 10);
    }
  }

  lemma DecimalInjective(m: nat, n: nat)
    requires Decimal(m) == Decimal(n)
    ensures m == n
  {
    DecimalReads(m);
    DecimalReads(n);
  }

  // ---------------------------------------------------------------------------- the search

  /** A name part: its lower-case letters and digits. */
  function Part(s: string): string {
    Keep(Lower(Strip(s)), LowerChars)
  }

  function Joined(first: string, last: string): string {
    var f, l := Part(first), Part(last);
    if f != "" && l != "" then f + "." + l else f + l
  }

  function Base(first: string, last: string): string {
    AtMost(if Joined(first, last) == "" then "user" else Joined(first, last), 60)
  }

  /** The username is the names with a number or none. */
  predicate Fits(username: string, first: string, last: string) {
    Joined(first, last) <= username
    && forall i :: |Joined(first, last)| <= i < |username| ==> '0' <= username[i] <= '9'
  }

  /** The candidates, in order: john.smith, john.smith2, john.smith3, ... */
  function Candidate(base: string, n: nat): string {
    if n <= 1 then base else base + Decimal(n)
  }

  lemma CandidatesDiffer(base: string, m: nat, n: nat)
    requires 1 <= m < n
    ensures Candidate(base, m) != Candidate(base, n)
  {
    if m > 1 && Decimal(m) == Decimal(n) { DecimalInjective(m, n); }
    if m > 1 { SuffixInjective(base, Decimal(m), Decimal(n)); }
  }

  lemma SuffixInjective(base: string, a: string, b: string)
    ensures base + a == base + b ==> a == b
  {
    assert (base + a)[|base|..] == a && (base + b)[|base|..] == b;
  }

  /** SQLite's LIKE with a prefix pattern, which ignores case. */
  predicate Like(s: string, prefix: string) {
    |prefix| <= |s| && Lower(s[..|prefix|]) == Lower(prefix)
  }

  predicate Selected(dn: string, u: User, base: string) {
    (u.username.Some? && Like(u.username.value, base)) || Like(dn, LOCAL + base)
  }

  function Taken(t: Table, base: string): set<string> {
    set dn, name | dn in t && Selected(dn, t[dn], base) && name in Names(dn, t[dn]) :: name
  }

  /** A name that starts with the base is among the rows the query selects if and only
      if any row at all occupies it. */
  lemma TakenIsExact(t: Table, base: string, n: nat)
    ensures Candidate(base, n) in Taken(t, base) <==> !FreeIn(t, Candidate(base, n))
  {
    var name := Candidate(base, n);
    assert name[..|base|] == base;
    assert (LOCAL + name)[..|LOCAL + base|] == LOCAL + base;
    forall dn | dn in t && name in Names(dn, t[dn]) ensures Selected(dn, t[dn], base) {
      if LOCAL <= dn && name == dn[6..] { assert dn == LOCAL + name; }
    }
  }

  predicate SmallestFree(t: Table, base: string, name: string, n: nat) {
    && n >= 1 && name == Candidate(base, n) && FreeIn(t, name)
    && forall m :: 1 <= m < n ==> !FreeIn(t, Candidate(base, m))
  }

  /** A renaming leaves the username: there are no names, or it fits them already. */
  predicate KeepsName(u: User, first: string, last: string) {
    Joined(first, last) == ""
    || (u.username.Some? && u.username.value != "" && Fits(u.username.value, first, last))
  }

  predicate Digits(s: string) {
    forall i :: 0 <= i < |s| ==> '0' <= s[i] <= '9'
  }

  /** A username fits exactly when it is the names, joined by a dot when both are there,
      and then digits or nothing. */
  lemma FitsExactly(username: string, first: string, last: string)
    ensures var f, l := Part(first), Part(last);
            var names := if f == "" then l else if l == "" then f else f + "." + l;
      Fits(username, first, last) <==> names <= username && Digits(username[|names|..])
  {
    assert Part(first) + "" == Part(first) && "" + Part(last) == Part(last);
    if Joined(first, last) <= username { DigitsAfter(username, Joined(first, last)); }
  }

  lemma DigitsAfter(s: string, start: string)
    requires start <= s
    ensures Digits(s[|start|..]) <==> forall i :: |start| <= i < |s| ==> '0' <= s[i] <= '9'
  {
    assert forall i :: |start| <= i < |s| ==> s[i] == s[|start|..][i - |start|];
  }

  /** Every username derived from some names fits them, so that saving the names again
      keeps it, if and only if the names were not cut to 60 characters. */
  lemma ResaveKeepsName(first: string, last: string)
    requires Joined(first, last) != ""
    ensures |Joined(first, last)| <= 60 <==> forall n: nat :: Fits(Candidate(Base(first, last), n), first, last)
  {
    var joined := Joined(first, last);
    if |joined| <= 60 {
      forall n: nat ensures Fits(Candidate(Base(first, last), n), first, last) {
        DecimalReads(n);
        assert joined <= joined + Decimal(n);
      }
    } else {
      assert !Fits(Candidate(Base(first, last), 1), first, last);
    }
  }

  /** The smallest free name for a person. */
  ghost predicate GivenName(t: Table, names: (string, string), name: string) {
    exists n: nat :: SmallestFree(t, Base(names.0, names.1), name, n)
  }

  /** Another row has meanwhile got the name given. */
  ghost predicate LostTo(t: Table, names: (string, string), later: Table, dn: string) {
    exists name, d :: GivenName(t, names, name) && d in later && d != dn && later[d].username == Some(name)
  }

  /** The first candidate that is not taken; one more probe than taken names is
      enough. */
  method FirstFree(base: string, taken: set<string>) returns (name: string, ghost n: nat)
    ensures name == Candidate(base, n) && name !in taken && 1 <= n <= |taken| + 1
    ensures forall m :: 1 <= m < n ==> Candidate(base, m) in taken
  {
    if base !in taken { return base, 1; }
    var k := 2;
    while base + Decimal(k) in taken
      invariant k >= 2 && forall m :: 1 <= m < k ==> Candidate(base, m) in taken
      decreases |taken| - k
    {
      k := k + 1;
      ProbesFit(base, k, taken);
    }
    ProbesFit(base, k, taken);
    return base + Decimal(k), k;
  }

  method DeriveUsername(t: Table, base: string) returns (name: string)
    ensures FreeIn(t, name)
    ensures exists n: nat :: SmallestFree(t, base, name, n) && n <= |Taken(t, base)| + 1
  {
    ghost var n;
    name, n := FirstFree(base, Taken(t, base));
    forall m: nat ensures Candidate(base, m) in Taken(t, base) <==> !FreeIn(t, Candidate(base, m)) {
      TakenIsExact(t, base, m);
    }
    assert SmallestFree(t, base, name, n);
  }

  /** The candidates probed so far are different names, all taken. */
  lemma {:induction false} ProbesFit(base: string, k: nat, taken: set<string>)
    requires k >= 1 && forall m :: 1 <= m < k ==> Candidate(base, m) in taken
    ensures k - 1 <= |taken|
  {
    if k <= 1 {
    } else {
      var last := Candidate(base, k - 1);
      forall m | 1 <= m < k - 1 ensures Candidate(base, m) in taken - {last} { CandidatesDiffer(base, m, k - 1); }
      ProbesFit(base, k - 1, taken - {last});
    }
  }

  // --------------------------------------------------------------------------- the table

  /** A row added keeps rows apart exactly when its names are free. */
  lemma AddRow(t: Table, dn: string, u: User)
    requires Distinct(t) && dn !in t
    ensures Distinct(t[dn := u]) <==> forall name :: name in Names(dn, u) ==> FreeIn(t, name)
  {
    var after := t[dn := u];
    if Distinct(after) {
      forall name, a | name in Names(dn, u) && a in t ensures name !in Names(a, t[a]) {
        assert Names(a, after[a]) !! Names(dn, after[dn]);
      }
    } else {
      var a, b :| a in after && b in after && a != b && !(Names(a, after[a]) !! Names(b, after[b]));
      var name :| name in Names(a, after[a]) && name in Names(b, after[b]);
      assert a == dn || b == dn;
    }
  }

  /** A local row for a name fits the keys of the table exactly when the name is free:
      the two database constraints guard both columns. */
  lemma ConstraintsGuard(t: Table, name: string)
    requires name != ""
    ensures FreeIn(t, name) <==>
            LOCAL + name !in t && forall dn :: dn in t ==> t[dn].username != Some(name)
  {
    assert (LOCAL + name)[6..] == name;
    assert forall dn :: LOCAL <= dn && dn[6..] == name ==> dn == LOCAL + name;
  }

  /** A key added without a name check keeps rows apart exactly when its local name is
      free. */
  lemma UncheckedKey(t: Table, dn: string)
    requires Distinct(t) && dn !in t
    ensures Distinct(t[dn := User(None)]) <==> (LOCAL <= dn ==> FreeIn(t, dn[6..]))
  {
    AddRow(t, dn, User(None));
  }

  /** What the database's keys admit: a new key, and a username no row has. */
  predicate Admits(t: Table, dn: string, username: Option<string>) {
    dn !in t && (username.Some? ==> forall d :: d in t ==> t[d].username != username)
  }

  /** A row with a username, admitted by the database, keeps rows apart exactly when no
      local key holds the name. */
  lemma AdmittedRow(t: Table, dn: string, name: string)
    requires Distinct(t) && Admits(t, dn, Some(name)) && name != "" && !(LOCAL <= dn)
    ensures Distinct(t[dn := User(Some(name))]) <==> LOCAL + name !in t
  {
    AddRow(t, dn, User(Some(name)));
    ConstraintsGuard(t, name);
  }

  /** A row renamed to a username no other row has keeps rows apart exactly when no other
      row's local key holds the name. */
  lemma RenamedRow(t: Table, dn: string, name: string)
    requires Distinct(t) && dn in t && name != "" && forall d :: d in t && d != dn ==> t[d].username != Some(name)
    ensures Distinct(t[dn := User(Some(name))]) <==> LOCAL + name == dn || LOCAL + name !in t
  {
    var after := t[dn := User(Some(name))];
    assert (LOCAL + name)[6..] == name;
    if LOCAL + name == dn || LOCAL + name !in t {
      forall a | a in t && a != dn ensures Names(a, after[a]) !! Names(dn, after[dn]) {
        assert Names(a, t[a]) !! Names(dn, t[dn]);
        assert LOCAL <= a && a[6..] == name ==> a == LOCAL + name;
      }
    } else {
      assert name in Names(LOCAL + name, after[LOCAL + name]) && name in Names(dn, after[dn]);
    }
  }

  datatype Renaming = NoUser | Kept | Taken | Renamed(name: string)

  datatype Upsert = Known | Added | Clashed

  /** One try of a registration: the table searched, the name found, and the table its
      insert met. */
  datatype Try = Try(read: Table, name: string, met: Table)

  /** Each try but the first searches the table its predecessor's insert met. */
  ghost predicate Chained(first: Table, tries: seq<Try>, last: Table) {
    if tries == [] then first == last
    else tries[|tries| - 1].met == last && Chained(first, tries[..|tries| - 1], tries[|tries| - 1].read)
  }

  class Users {
    var table: Table

    constructor ()
      ensures table == map[]
    {
      table := map[];
    }

    /** Other requests run. */
    method Others()
      requires Distinct(table)
      modifies this
      ensures Distinct(table)
    {
      var t: Table := *;
      if Distinct(t) { table := t; }
    }

    /** Inserts a local user, unless a constraint of the table forbids it. */
    method InsertLocal(name: string) returns (ok: bool)
      requires Distinct(table) && name != ""
      modifies this
      ensures ok <==> FreeIn(old(table), name)
      ensures table == if ok then old(table)[LOCAL + name := User(Some(name))] else old(table)
      ensures Distinct(table)
    {
      ConstraintsGuard(table, name);
      if LOCAL + name in table || exists dn :: dn in table && table[dn].username == Some(name) { return false; }
      AddRow(table, LOCAL + name, User(Some(name)));
      table := table[LOCAL + name := User(Some(name))];
      ok := true;
    }

    /** Registers a user, trying up to five times when other requests take the name
        between the search and the insert. It fails only when each of five names was
        taken by the time of its insert. */
    method Register(first: string, last: string) returns (name: Option<string>, ghost tries: seq<Try>)
      requires Distinct(table)
      modifies this
      ensures Distinct(table)
      ensures tries != [] && Chained(old(table), tries, tries[|tries| - 1].met)
      ensures forall t :: t in tries ==> GivenName(t.read, (first, last), t.name)
      ensures name.None? ==> |tries| == 5 && forall i :: 0 <= i < 5 ==> !FreeIn(tries[i].met, tries[i].name)
      ensures name.Some? ==> tries != [] && tries[|tries| - 1].name == name.value
      ensures name.Some? ==> FreeIn(tries[|tries| - 1].met, name.value)
      ensures name.Some? ==> table == tries[|tries| - 1].met[LOCAL + name.value := User(name)]
    {
      var base := Base(first, last);
      BaseNotEmpty(first, last);
      tries := [];
      for i := 0 to 5
        invariant Distinct(table) && |tries| == i
        invariant forall k :: 0 <= k < i ==> !FreeIn(tries[k].met, tries[k].name)
        invariant Chained(old(table), tries, table)
        invariant forall t :: t in tries ==> GivenName(t.read, (first, last), t.name)
      {
        ghost var read := table;
        var candidate := DeriveUsername(table, base);
        assert GivenName(read, (first, last), candidate);
        Others();
        tries := tries + [Try(read, candidate, table)];
        var ok := InsertLocal(candidate);
        if ok { return Some(candidate), tries; }
      }
      name := None;
    }

    /** Creates a local user when no other request runs: it always succeeds. */
    method AdminCreate(first: string, last: string) returns (name: string)
      requires Distinct(table)
      modifies this
      ensures Distinct(table) && table == old(table)[LOCAL + name := User(Some(name))]
      ensures GivenName(old(table), (first, last), name)
    {
      name := DeriveUsername(table, Base(first, last));
      BaseNotEmpty(first, last);
      var ok := InsertLocal(name);
    }

    /** First sight of an identity. `names` are the names read from a card's
        distinguished name, if any; `later` is the table the insert meets, after
        other requests. */
    method UpsertUser(dn: string, names: Option<(string, string)>) returns (r: Upsert, ghost later: Table)
      requires Distinct(table)
      modifies this
      ensures r.Known? <==> dn in old(table)
      ensures r.Known? ==> later == table == old(table)
      ensures Distinct(later) && (r.Clashed? ==> table == later)
      ensures r.Clashed? ==> dn in later || (names.Some? && LostTo(old(table), names.value, later, dn))
      ensures r.Added? ==> dn !in later && dn in table && table == later[dn := table[dn]]
      ensures r.Added? && table[dn].username.Some? ==> !(LOCAL <= dn) && names.Some?
      ensures r.Added? && table[dn].username.Some? ==> GivenName(old(table), names.value, table[dn].username.value)
      ensures r.Added? && table[dn].username.Some? ==>
        (Distinct(table) <==> LOCAL + table[dn].username.value !in later)
      ensures r.Added? && table[dn].username.None? ==> (Distinct(table) <==> (LOCAL <= dn ==> FreeIn(later, dn[6..])))
      ensures r.Added? ==> (table[dn].username.Some? <==> names.Some? && !("ip:" <= dn) && !(LOCAL <= dn))
      ensures later == old(table) && !(LOCAL <= dn) ==> !r.Clashed? && Distinct(table)
    {
      later := table;
      if dn in table { return Known, later; }
      var username := None;
      if !("ip:" <= dn) && !(LOCAL <= dn) && names.Some? {
        var name := DeriveUsername(table, Base(names.value.0, names.value.1));
        BaseNotEmpty(names.value.0, names.value.1);
        username := Some(name);
        ConstraintsGuard(table, name);
      }
      Others();
      later := table;
      if dn in table || (username.Some? && exists d :: d in table && table[d].username == username) {
        return Clashed, later;
      }
      if username.Some? { AdmittedRow(table, dn, username.value); } else { UncheckedKey(table, dn); }
      table := table[dn := User(username)];
      r := Added;
    }

    /** Gives a user whose names changed a new username, unless the present one already
        fits. `later` is the table the update meets, after other requests; the unique
        index refuses a username another row has. */
    method Rename(dn: string, first: string, last: string) returns (r: Renaming, ghost later: Table)
      requires Distinct(table)
      modifies this
      ensures r.NoUser? <==> dn !in old(table)
      ensures r.Kept? <==>
        dn in old(table)
        && ((Part(first) == "" && Part(last) == "")
            || (old(table)[dn].username.Some? && old(table)[dn].username.value != ""
                && Fits(old(table)[dn].username.value, first, last)))
      ensures r.NoUser? || r.Kept? ==> later == table == old(table)
      ensures Distinct(later) && (r.Taken? ==> table == later && LostTo(old(table), (first, last), later, dn))
      ensures r.Renamed? ==> GivenName(old(table), (first, last), r.name)
      ensures r.Renamed? ==> table == if dn in later then later[dn := User(Some(r.name))] else later
      ensures r.Renamed? ==> (Distinct(table) <==> dn !in later || LOCAL + r.name == dn || LOCAL + r.name !in later)
      ensures r.Renamed? && later == old(table) ==> Distinct(table) && table[dn].username != old(table)[dn].username
      ensures later == old(table) ==> !r.Taken?
    {
      later := table;
      if dn !in table { return NoUser, later; }
      if KeepsName(table[dn], first, last) { return Kept, later; }
      var name := DeriveUsername(table, Base(first, last));
      BaseNotEmpty(first, last);
      ConstraintsGuard(table, name);
      Others();
      later := table;
      if dn in table {
        if exists d :: d in table && d != dn && table[d].username == Some(name) { return Taken, later; }
        RenamedRow(table, dn, name);
        table := table[dn := User(Some(name))];
      }
      r := Renamed(name);
    }
  }

  /** Plain names: two give them in lower case with a dot between, none give "user". */
  lemma PlainNames(first: string, last: string)
    requires Trimmed(first) && Trimmed(last)
    requires forall c :: c in Lower(first) ==> 'a' <= c <= 'z' || '0' <= c <= '9'
    requires forall c :: c in Lower(last) ==> 'a' <= c <= 'z' || '0' <= c <= '9'
    requires |first| + |last| < 60
    ensures first != "" && last != "" ==> Base(first, last) == Lower(first) + "." + Lower(last)
    ensures first == last == "" ==> Base(first, last) == "user"
  {
    PartOf(first, Lower(first));
    PartOf(last, Lower(last));
  }

  lemma PartOf(s: string, lower: string)
    requires Lower(s) == lower && Trimmed(s) && forall c :: c in lower ==> 'a' <= c <= 'z' || '0' <= c <= '9'
    ensures Part(s) == lower
  {
    forall i | 0 <= i < |lower| ensures In(LowerChars, lower[i]) { assert lower[i] in lower; }
    StripTrims(s);
    KeepsAll(lower, LowerChars);
  }

  lemma BaseNotEmpty(first: string, last: string)
    ensures Base(first, last) != ""
  {}
}
