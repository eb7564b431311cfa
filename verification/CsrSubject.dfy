/** The configured subject of certificate requests (backend/csr_subject.py): its
    cleaning, its rendering to the helper's file, and the helper's reading of that
    file (load_subject_conf in helper/certheim_helper.d/00-common.sh). */
module CsrSubject {
  import opened Text

  const MAX_LEN := 128
  const MAX_ITEMS := 16
  const MAX_FIELD := 64

  datatype DnField = DnField(field: string, value: string)

  /** A subject configuration; a missing value is the empty string. */
  datatype Config = Config(country: string, state: string, locality: string, org: string, ous: seq<string>,
                           domainSuffix: string, domainSuffixes: seq<string>, customDn: seq<DnField>,
                           extraSans: seq<string>)

  function OneLine(s: string): string {
    seq(|s|, i requires 0 <= i < |s| => if s[i] == '\n' || s[i] == '\r' then ' ' else s[i])
  }

  /** sanitize and _clean_san: a value reduced to the allowed characters. */
  function Sanitize(value: string, chars: Charset): string {
    AtMost(Keep(Strip(OneLine(value)), chars), MAX_LEN)
  }

  function CleanDnField(name: string): string {
    AtMost(Keep(Strip(name), FieldChars), MAX_FIELD)
  }

  predicate SeenIn(out: seq<string>, s: string) {
    exists i :: 0 <= i < |out| && Lower(out[i]) == Lower(s)
  }

  /** The items that are not empty, the first of each spelling. */
  function Distinct(items: seq<string>): seq<string> {
    if items == [] then []
    else
      var out, s := Distinct(items[..|items| - 1]), items[|items| - 1];
      if s != "" && !SeenIn(out, s) then out + [s] else out
  }

  function Sanitized(items: seq<string>, chars: Charset): seq<string> {
    seq(|items|, i requires 0 <= i < |items| => Sanitize(items[i], chars))
  }

  function CleanList(items: seq<string>, chars: Charset): seq<string> {
    AtMost(Distinct(Sanitized(items, chars)), MAX_ITEMS)
  }

  function CleanField(f: DnField): DnField {
    DnField(CleanDnField(f.field), Sanitize(f.value, ValueChars))
  }

  /** The fields with both parts. */
  function Whole(items: seq<DnField>): seq<DnField> {
    if items == [] then []
    else
      var out, f := Whole(items[..|items| - 1]), items[|items| - 1];
      if f.field != "" && f.value != "" then out + [f] else out
  }

  function CleanFields(items: seq<DnField>): seq<DnField> {
    seq(|items|, i requires 0 <= i < |items| => CleanField(items[i]))
  }

  function CleanDn(items: seq<DnField>): seq<DnField> {
    AtMost(Whole(CleanFields(items)), MAX_ITEMS)
  }

  function Clean(cfg: Config): Config {
    Config(Sanitize(cfg.country, ValueChars), Sanitize(cfg.state, ValueChars), Sanitize(cfg.locality, ValueChars),
           Sanitize(cfg.org, ValueChars), CleanList(cfg.ous, ValueChars),
           Sanitize(cfg.domainSuffix, DomainChars), CleanList(cfg.domainSuffixes, DomainChars),
           CleanDn(cfg.customDn), CleanList(cfg.extraSans, SanChars))
  }

  // ------------------------------------------------------------------ what cleaning gives

  predicate Safe(s: string, chars: Charset) {
    AllOf(s, chars) && |s| <= 128
  }

  predicate SafeList(items: seq<string>, chars: Charset) {
    && |items| <= 16
    && (forall i :: 0 <= i < |items| ==> items[i] != "" && Safe(items[i], chars))
    && (forall i, j :: 0 <= i < j < |items| ==> Lower(items[i]) != Lower(items[j]))
  }

  predicate SafeField(f: DnField) {
    f.field != "" && AllOf(f.field, FieldChars) && |f.field| <= 64 && f.value != "" && Safe(f.value, ValueChars)
  }

  predicate SafeDn(items: seq<DnField>) {
    |items| <= 16 && forall i :: 0 <= i < |items| ==> SafeField(items[i])
  }

  predicate SafeConfig(c: Config) {
    && Safe(c.country, ValueChars) && Safe(c.state, ValueChars)
    && Safe(c.locality, ValueChars) && Safe(c.org, ValueChars)
    && SafeList(c.ous, ValueChars) && Safe(c.domainSuffix, DomainChars) && SafeList(c.domainSuffixes, DomainChars)
    && SafeDn(c.customDn) && SafeList(c.extraSans, SanChars)
  }

  predicate TrimmedList(items: seq<string>) {
    forall i :: 0 <= i < |items| ==> Trimmed(items[i])
  }

  predicate TrimmedDn(items: seq<DnField>) {
    forall i :: 0 <= i < |items| ==> Trimmed(items[i].value)
  }

  predicate TrimmedConfig(c: Config) {
    && Trimmed(c.country) && Trimmed(c.state) && Trimmed(c.locality) && Trimmed(c.org)
    && TrimmedList(c.ous) && TrimmedDn(c.customDn) && TrimmedList(c.extraSans)
  }

  /** A cleaned value has allowed characters only; cleaned again, it is stripped and
      not otherwise changed. */
  lemma SanitizeTwice(v: string, chars: Charset)
    ensures Safe(Sanitize(v, chars), chars)
    ensures Safe(v, chars) ==> Sanitize(v, chars) == Strip(v) && Trimmed(Sanitize(v, chars))
    ensures Safe(v, chars) ==> (Sanitize(v, chars) == v <==> Trimmed(v))
  {
    KeepKeeps(Strip(OneLine(v)), chars);
    if Safe(v, chars) {
      assert OneLine(v) == v;
      StripTrims(v);
    }
  }

  /** Of a trimmed line the allowed characters stay, one by one and in order, and of those
      the first 128; a line break counts as a space. */
  lemma Reduced(v: string, w: string, chars: Charset)
    requires Trimmed(v) && |v| == |w|
    requires forall i :: 0 <= i < |v| ==> w[i] == v[i] || (v[i] == ' ' && (w[i] == '\n' || w[i] == '\r'))
    requires forall i :: 0 <= i < |v| ==> v[i] != '\n' && v[i] != '\r'
    ensures Sanitize(w, chars) == Sanitize(v, chars)
    ensures AllOf(v, chars) ==> Sanitize(v, chars) == if |v| <= 128 then v else v[..128]
    ensures |Keep(v, chars)| <= 128 ==> Sanitize(v, chars) == Keep(v, chars)
  {
    assert OneLine(w) == v && OneLine(v) == v;
    StripTrims(v);
    KeepKeeps(v, chars);
  }

  lemma CleanDnFieldTwice(name: string)
    ensures AllOf(CleanDnField(name), FieldChars) && |CleanDnField(name)| <= 64
    ensures AllOf(name, FieldChars) && |name| <= 64 ==> CleanDnField(name) == name
  {
    KeepKeeps(Strip(name), FieldChars);
    StripTrims(name);
    if AllOf(name, FieldChars) && name != "" { assert In(FieldChars, name[0]) && In(FieldChars, name[|name| - 1]); }
  }

  lemma {:induction false} DistinctShape(items: seq<string>)
    ensures forall i :: 0 <= i < |Distinct(items)| ==> Distinct(items)[i] != "" && Distinct(items)[i] in items
    ensures forall i, j :: 0 <= i < j < |Distinct(items)| ==> Lower(Distinct(items)[i]) != Lower(Distinct(items)[j])
  {
    if items == [] {
    } else {
      DistinctShape(items[..|items| - 1]);
    }
  }

  lemma {:induction false} DistinctPrefix(items: seq<string>, n: nat)
    requires n <= |items|
    ensures Distinct(items[..n]) <= Distinct(items)
    decreases |items|
  {
    if n == |items| {
      assert items[..n] == items;
    } else {
      DistinctPrefix(items[..|items| - 1], n);
      assert items[..|items| - 1][..n] == items[..n];
    }
  }

  /** Items kept are kept in order, the first of each spelling. */
  lemma DistinctKeeps(items: seq<string>, n: nat)
    requires n < |items| && items[n] != ""
    ensures SeenIn(Distinct(items), items[n])
    ensures (forall i :: 0 <= i < n ==> Lower(items[i]) != Lower(items[n])) ==> items[n] in Distinct(items)
  {
    var upTo, out := items[..n + 1], Distinct(items[..n]);
    assert upTo[..|upTo| - 1] == items[..n];
    DistinctPrefix(items, n + 1);
    if SeenIn(out, items[n]) {
      DistinctShape(items[..n]);
      var i :| 0 <= i < |out| && Lower(out[i]) == Lower(items[n]);
      assert Distinct(items)[i] == out[i];
    } else {
      assert Distinct(items)[|out|] == items[n];
    }
  }

  lemma {:induction false} DistinctFixed(items: seq<string>)
    requires forall i :: 0 <= i < |items| ==> items[i] != ""
    requires forall i, j :: 0 <= i < j < |items| ==> Lower(items[i]) != Lower(items[j])
    ensures Distinct(items) == items
  {
    if items == [] {
    } else {
      DistinctFixed(items[..|items| - 1]);
      assert items == items[..|items| - 1] + [items[|items| - 1]];
    }
  }

  /** Cleaning a safe list again changes nothing exactly when its items are trimmed. */
  lemma ListCleaned(items: seq<string>, chars: Charset)
    ensures SafeList(CleanList(items, chars), chars)
    ensures SafeList(items, chars) ==> TrimmedList(CleanList(items, chars))
    ensures SafeList(items, chars) ==> (CleanList(items, chars) == items <==> TrimmedList(items))
  {
    var clean := Sanitized(items, chars);
    forall i | 0 <= i < |items|
      ensures Safe(clean[i], chars)
      ensures Safe(items[i], chars) ==> Trimmed(clean[i]) && (clean[i] == items[i] <==> Trimmed(items[i]))
    {
      SanitizeTwice(items[i], chars);
    }
    DistinctShape(clean);
    if SafeList(items, chars) && TrimmedList(items) {
      assert clean == items;
      DistinctFixed(items);
    }
  }

  /** A list of fewer than 16 items has dropped nothing: each value that is not empty
      when reduced is there, in the first spelling given; the order is as given. */
  lemma ListComplete(items: seq<string>, chars: Charset, n: nat)
    requires n < |items| && Sanitize(items[n], chars) != "" && |CleanList(items, chars)| < 16
    ensures SeenIn(CleanList(items, chars), Sanitize(items[n], chars))
    ensures (forall i :: 0 <= i < n ==> Lower(Sanitize(items[i], chars)) != Lower(Sanitize(items[n], chars)))
            ==> Sanitize(items[n], chars) in CleanList(items, chars)
    ensures CleanList(items[..n], chars) <= CleanList(items, chars)
  {
    var clean := Sanitized(items, chars);
    DistinctKeeps(clean, n);
    DistinctPrefix(clean, n);
    assert clean[..n] == Sanitized(items[..n], chars);
  }

  lemma {:induction false} WholeShape(items: seq<DnField>)
    ensures forall f :: f in Whole(items) ==> f.field != "" && f.value != "" && f in items
    ensures (forall f :: f in items ==> f.field != "" && f.value != "") ==> Whole(items) == items
  {
    if items == [] {
    } else {
      WholeShape(items[..|items| - 1]);
      assert items == items[..|items| - 1] + [items[|items| - 1]];
    }
  }

  lemma {:induction false} WholePrefix(items: seq<DnField>, n: nat)
    requires n <= |items|
    ensures Whole(items[..n]) <= Whole(items)
    decreases |items|
  {
    if n == |items| {
      assert items[..n] == items;
    } else {
      WholePrefix(items[..|items| - 1], n);
      assert items[..|items| - 1][..n] == items[..n];
    }
  }

  lemma WholeKeeps(items: seq<DnField>, n: nat)
    requires n < |items| && items[n].field != "" && items[n].value != ""
    ensures items[n] in Whole(items)
  {
    var upTo, out := items[..n + 1], Whole(items[..n]);
    assert upTo[..|upTo| - 1] == items[..n];
    WholePrefix(items, n + 1);
    assert Whole(items)[|out|] == items[n];
  }

  /** Fewer than 16 attributes have dropped no whole one, and the order is as given. */
  lemma DnComplete(items: seq<DnField>, n: nat)
    requires n < |items| && CleanField(items[n]).field != "" && CleanField(items[n]).value != ""
    requires |CleanDn(items)| < 16
    ensures CleanField(items[n]) in CleanDn(items) && CleanDn(items[..n]) <= CleanDn(items)
  {
    WholeKeeps(CleanFields(items), n);
    WholePrefix(CleanFields(items), n);
    assert CleanFields(items)[..n] == CleanFields(items[..n]);
  }

  lemma DnCleaned(items: seq<DnField>)
    ensures SafeDn(CleanDn(items))
    ensures SafeDn(items) ==> TrimmedDn(CleanDn(items)) && (CleanDn(items) == items <==> TrimmedDn(items))
  {
    var clean := CleanFields(items);
    forall i | 0 <= i < |items|
      ensures clean[i].field != "" && clean[i].value != "" ==> SafeField(clean[i])
      ensures SafeField(items[i]) ==> Trimmed(clean[i].value) && (clean[i] == items[i] <==> Trimmed(items[i].value))
    {
      SanitizeTwice(items[i].value, ValueChars);
      CleanDnFieldTwice(items[i].field);
    }
    WholeShape(clean);
    forall i | 0 <= i < |CleanDn(items)| ensures CleanDn(items)[i] in clean && SafeField(CleanDn(items)[i]) {
      assert CleanDn(items)[i] in Whole(clean);
    }
    if SafeDn(items) && TrimmedDn(items) { assert clean == items; }
  }

  lemma CleanIsSafe(cfg: Config)
    ensures SafeConfig(Clean(cfg))
  {
    SanitizeTwice(cfg.country, ValueChars);
    SanitizeTwice(cfg.state, ValueChars);
    SanitizeTwice(cfg.locality, ValueChars);
    SanitizeTwice(cfg.org, ValueChars);
    SanitizeTwice(cfg.domainSuffix, DomainChars);
    ListCleaned(cfg.ous, ValueChars);
    ListCleaned(cfg.domainSuffixes, DomainChars);
    ListCleaned(cfg.extraSans, SanChars);
    DnCleaned(cfg.customDn);
  }

  lemma DomainTrimmed(s: string)
    requires AllOf(s, DomainChars)
    ensures Trimmed(s)
  {
    if s != "" { assert In(DomainChars, s[0]) && In(DomainChars, s[|s| - 1]); }
  }

  /** A cleaned configuration is settled exactly when all its values are trimmed, and
      cleaning it once more trims them. */
  lemma SafeCleaned(c: Config)
    requires SafeConfig(c)
    ensures Clean(c) == c <==> TrimmedConfig(c)
    ensures TrimmedConfig(Clean(c))
  {
    SanitizeTwice(c.country, ValueChars);
    SanitizeTwice(c.state, ValueChars);
    SanitizeTwice(c.locality, ValueChars);
    SanitizeTwice(c.org, ValueChars);
    SanitizeTwice(c.domainSuffix, DomainChars);
    DomainTrimmed(c.domainSuffix);
    forall i | 0 <= i < |c.domainSuffixes| ensures Trimmed(c.domainSuffixes[i]) { DomainTrimmed(c.domainSuffixes[i]); }
    ListCleaned(c.ous, ValueChars);
    ListCleaned(c.domainSuffixes, DomainChars);
    ListCleaned(c.extraSans, SanChars);
    DnCleaned(c.customDn);
  }

  /** Cleaning settles after two applications; one is enough exactly when it leaves
      no value with a space at an end. */
  lemma CleanSettles(cfg: Config)
    ensures Clean(Clean(Clean(cfg))) == Clean(Clean(cfg))
    ensures Clean(Clean(cfg)) == Clean(cfg) <==> TrimmedConfig(Clean(cfg))
  {
    CleanIsSafe(cfg);
    CleanIsSafe(Clean(cfg));
    SafeCleaned(Clean(cfg));
    SafeCleaned(Clean(Clean(cfg)));
  }

  lemma SpaceStripped(w: string, t: string)
    requires w == [' '] + t && t != "" && Trimmed(t) && Safe(w, ValueChars)
    ensures Sanitize(w, ValueChars) == t
  {
    SanitizeTwice(w, ValueChars);
    StripTrims(t);
    assert w[1..] == t;
    assert StripLeft(w) == StripLeft(t);
  }

  lemma HashDropped(v: string, w: string)
    requires v == ['#'] + w && w != "" && !IsSpace(w[|w| - 1]) && Safe(w, ValueChars)
    ensures Sanitize(v, ValueChars) == w
  {
    assert v[1..] == w && v[|v| - 1] == w[|w| - 1];
    assert OneLine(v) == v by {
      assert forall i :: 0 < i < |v| ==> v[i] == w[i - 1] && In(ValueChars, w[i - 1]);
    }
    assert Strip(v) == v by { StripTrims(v); }
    assert Keep(v, ValueChars) == w by { KeepKeeps(w, ValueChars); }
  }

  /** Once is not enough in general: a dropped character leaves the space after it. */
  lemma CleanOnceIsNotEnough(cfg: Config, t: string)
    requires cfg.org == "#" + (" " + t) && t != "" && Trimmed(t) && Safe(" " + t, ValueChars)
    ensures Clean(cfg).org == " " + t && Clean(Clean(cfg)).org == t
  {
    HashDropped(cfg.org, " " + t);
    SpaceStripped(" " + t, t);
  }
}
