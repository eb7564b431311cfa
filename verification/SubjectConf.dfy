/** Rendering the subject (clean_config and render_conf in backend/csr_subject.py)
    and reading the rendered file back (load_subject_conf in
    helper/certheim_helper.d/00-common.sh and the XDN loop in 10-certtypes.sh). */
module SubjectConf {
  import opened Wrappers
  import opened Text
  import opened CsrSubject

  // --------------------------------------------------------------------------- rendering

  datatype Key = C | ST | L | O | OU | Suffix | SuffixAlt | XDN | XSAN

  function Name(key: Key): string {
    match key
    case C => "C"
    case ST => "ST"
    case L => "L"
    case O => "O"
    case OU => "OU"
    case Suffix => "DOMAIN_SUFFIX"
    case SuffixAlt => "DOMAIN_SUFFIX_ALT"
    case XDN => "XDN"
    case XSAN => "XSAN"
  }

  function Line(key: Key, value: string): string {
    Name(key) + "=" + value
  }

  function Tagged(key: Key, values: seq<string>): seq<string> {
    seq(|values|, i requires 0 <= i < |values| => Line(key, values[i]))
  }

  function Pairs(fields: seq<DnField>): seq<string> {
    seq(|fields|, i requires 0 <= i < |fields| => fields[i].field + ":" + fields[i].value)
  }

  function Head(c: Config): seq<string> {
    [Line(C, c.country), Line(ST, c.state), Line(L, c.locality), Line(O, c.org)]
  }

  function ConfLines(c: Config): seq<string> {
    Head(c) + Tagged(OU, c.ous) + [Line(Suffix, c.domainSuffix)]
    + Tagged(SuffixAlt, c.domainSuffixes) + Tagged(XDN, Pairs(c.customDn)) + Tagged(XSAN, c.extraSans)
  }

  function Render(cfg: Config): string {
    Join(ConfLines(Clean(cfg)), "\n") + "\n"
  }

  // ----------------------------------------------------------------------------- reading

  function KeyNamed(name: string): Option<Key> {
    if name == "C" then Some(C)
    else if name == "ST" then Some(ST)
    else if name == "L" then Some(L)
    else if name == "O" then Some(O)
    else if name == "OU" then Some(OU)
    else if name == "DOMAIN_SUFFIX" then Some(Suffix)
    else if name == "DOMAIN_SUFFIX_ALT" then Some(SuffixAlt)
    else if name == "XDN" then Some(XDN)
    else if name == "XSAN" then Some(XSAN)
    else None
  }

  /** The helper's variables. */
  datatype Subject = Subject(c: string, st: string, l: string, o: string, ous: seq<string>, suffix: string,
                             alts: seq<string>, xdn: seq<string>, xsans: seq<string>)

  /** What the helper takes a line for. */
  datatype Entry = Entry(key: Option<Key>, value: string)

  /** The key before the first '=', and the value after it. */
  function ReadLine(line: string): Entry {
    var i := IndexOf(line, '=');
    Entry(KeyNamed(line[..i]), if i < |line| then line[i + 1..] else "")
  }

  function Entries(lines: seq<string>): seq<Entry> {
    seq(|lines|, i requires 0 <= i < |lines| => ReadLine(lines[i]))
  }

  function Assign(x: Subject, e: Entry): Subject {
    if e.key.None? then x
    else
      match e.key.value
      case C => x.(c := e.value)
      case ST => x.(st := e.value)
      case L => x.(l := e.value)
      case O => x.(o := e.value)
      case Suffix => x.(suffix := e.value)
      case _ => if e.value == "" then x else Append(x, e.key.value, [e.value])
  }

  function Append(x: Subject, key: Key, values: seq<string>): Subject {
    match key
    case OU => x.(ous := x.ous + values)
    case SuffixAlt => x.(alts := x.alts + values)
    case XDN => x.(xdn := x.xdn + values)
    case XSAN => x.(xsans := x.xsans + values)
    case _ => x
  }

  function AssignAll(x: Subject, entries: seq<Entry>): Subject {
    if entries == [] then x else Assign(AssignAll(x, entries[..|entries| - 1]), entries[|entries| - 1])
  }

  /** Reading a file clears the lists, whatever the variables held. */
  function Load(x: Subject, text: string): Subject {
    AssignAll(x.(ous := [], alts := [], xdn := [], xsans := []), Entries(Lines(text)))
  }

  /** An attribute is split at its first ':'. */
  function SplitDn(s: string): DnField {
    var i := IndexOf(s, ':');
    if i == |s| then DnField(s, s) else DnField(s[..i], s[i + 1..])
  }

  function SplitAll(xdn: seq<string>): seq<DnField> {
    seq(|xdn|, i requires 0 <= i < |xdn| => SplitDn(xdn[i]))
  }

  /** What the helper puts into a request. */
  function Meaning(x: Subject): Config {
    Config(x.c, x.st, x.l, x.o, x.ous, x.suffix, x.alts, Whole(SplitAll(x.xdn)), x.xsans)
  }

  // -------------------------------------------------------------------------- round trip

  lemma {:induction false} AssignConcat(x: Subject, a: seq<Entry>, b: seq<Entry>)
    ensures AssignAll(x, a + b) == AssignAll(AssignAll(x, a), b)
  {
    if b == [] {
      assert a + b == a;
    } else {
      assert (a + b)[..|a + b| - 1] == a + b[..|b| - 1];
      AssignConcat(x, a, b[..|b| - 1]);
    }
  }

  /** The key a name stands for in the helper's case statement. */
  lemma NameKnown(key: Key)
    ensures KeyNamed(Name(key)) == Some(key) && Free(Name(key), '=')
  {}

  lemma LineRead(key: Key, value: string)
    ensures ReadLine(Line(key, value)) == Entry(Some(key), value)
    ensures IndexOf(Line(key, value), '=') == |Name(key)| < |Line(key, value)|
    ensures Line(key, value)[..|Name(key)|] == Name(key) && Line(key, value)[|Name(key)| + 1..] == value
  {
    NameKnown(key);
    IndexAfter(Name(key), '=', value);
    assert Line(key, value) == Name(key) + ['='] + value;
  }

  predicate NoneEmpty(values: seq<string>) {
    forall i :: 0 <= i < |values| ==> values[i] != ""
  }

  predicate ListKey(key: Key) {
    key in {OU, SuffixAlt, XDN, XSAN}
  }

  /** A list's key without a value adds nothing. */
  lemma EmptyItemIgnored(x: Subject, key: Key)
    requires ListKey(key)
    ensures Assign(x, ReadLine(Name(key) + "=")) == x
  {
    LineRead(key, "");
    assert Line(key, "") == Name(key) + "=";
  }

  function ListEntries(key: Key, values: seq<string>): seq<Entry> {
    seq(|values|, i requires 0 <= i < |values| => Entry(Some(key), values[i]))
  }

  function HeadEntries(c: Config): seq<Entry> {
    [Entry(Some(C), c.country), Entry(Some(ST), c.state), Entry(Some(L), c.locality), Entry(Some(O), c.org)]
  }

  function ConfEntries(c: Config): seq<Entry> {
    HeadEntries(c) + ListEntries(OU, c.ous) + [Entry(Some(Suffix), c.domainSuffix)]
    + ListEntries(SuffixAlt, c.domainSuffixes) + ListEntries(XDN, Pairs(c.customDn)) + ListEntries(XSAN, c.extraSans)
  }

  lemma ListOfTagged(key: Key, values: seq<string>)
    ensures Entries(Tagged(key, values)) == ListEntries(key, values)
  {
    forall i | 0 <= i < |values| ensures ReadLine(Tagged(key, values)[i]) == Entry(Some(key), values[i]) {
      LineRead(key, values[i]);
    }
  }

  lemma HeadOfHead(c: Config)
    ensures Entries(Head(c)) == HeadEntries(c)
    ensures Entries([Line(Suffix, c.domainSuffix)]) == [Entry(Some(Suffix), c.domainSuffix)]
  {
    LineRead(C, c.country);
    LineRead(ST, c.state);
    LineRead(L, c.locality);
    LineRead(O, c.org);
    LineRead(Suffix, c.domainSuffix);
  }

  lemma EntriesConcat(a: seq<string>, b: seq<string>)
    ensures Entries(a + b) == Entries(a) + Entries(b)
  {
  }

  /** The rendered lines are read as the entries of the configuration. */
  lemma EntriesOfConf(c: Config)
    ensures Entries(ConfLines(c)) == ConfEntries(c)
  {
    var l1 := Head(c) + Tagged(OU, c.ous);
    var l2 := l1 + [Line(Suffix, c.domainSuffix)];
    var l3 := l2 + Tagged(SuffixAlt, c.domainSuffixes);
    var l4 := l3 + Tagged(XDN, Pairs(c.customDn));
    HeadOfHead(c);
    ListOfTagged(OU, c.ous);
    ListOfTagged(SuffixAlt, c.domainSuffixes);
    ListOfTagged(XDN, Pairs(c.customDn));
    ListOfTagged(XSAN, c.extraSans);
    EntriesConcat(Head(c), Tagged(OU, c.ous));
    EntriesConcat(l1, [Line(Suffix, c.domainSuffix)]);
    EntriesConcat(l2, Tagged(SuffixAlt, c.domainSuffixes));
    EntriesConcat(l3, Tagged(XDN, Pairs(c.customDn)));
    EntriesConcat(l4, Tagged(XSAN, c.extraSans));
  }

  lemma {:induction false} ListRead(x: Subject, key: Key, values: seq<string>)
    requires ListKey(key) && NoneEmpty(values)
    ensures AssignAll(x, ListEntries(key, values)) == Append(x, key, values)
  {
    if values == [] {
      assert Append(x, key, values) == x;
    } else {
      var init, last := values[..|values| - 1], values[|values| - 1];
      ListRead(x, key, init);
      assert ListEntries(key, values)[..|init|] == ListEntries(key, init);
      AppendTwice(x, key, init, [last]);
      assert values == init + [last];
    }
  }

  lemma AppendTwice(x: Subject, key: Key, a: seq<string>, b: seq<string>)
    ensures Append(Append(x, key, a), key, b) == Append(x, key, a + b)
  {
    assert x.ous + a + b == x.ous + (a + b);
    assert x.alts + a + b == x.alts + (a + b);
    assert x.xdn + a + b == x.xdn + (a + b);
    assert x.xsans + a + b == x.xsans + (a + b);
  }

  lemma HeadRead(x: Subject, c: Config)
    ensures AssignAll(x, HeadEntries(c)) == x.(c := c.country, st := c.state, l := c.locality, o := c.org)
  {
    var h := HeadEntries(c);
    assert AssignAll(x, h[..1]) == x.(c := c.country) by { assert h[..1][..0] == []; }
    assert AssignAll(x, h[..2]) == x.(c := c.country, st := c.state) by { assert h[..2][..1] == h[..1]; }
    assert AssignAll(x, h[..3]) == x.(c := c.country, st := c.state, l := c.locality) by {
      assert h[..3][..2] == h[..2];
    }
  }

  lemma Chain(x: Subject, a: seq<Entry>, y: Subject, key: Key, values: seq<string>)
    requires AssignAll(x, a) == y && ListKey(key) && NoneEmpty(values)
    ensures AssignAll(x, a + ListEntries(key, values)) == Append(y, key, values)
  {
    AssignConcat(x, a, ListEntries(key, values));
    ListRead(y, key, values);
  }

  lemma SuffixRead(x: Subject, a: seq<Entry>, value: string)
    ensures AssignAll(x, a + [Entry(Some(Suffix), value)]) == AssignAll(x, a).(suffix := value)
  {
    assert (a + [Entry(Some(Suffix), value)])[..|a|] == a;
  }

  lemma SafeNoneEmpty(c: Config)
    requires SafeConfig(c)
    ensures NoneEmpty(c.ous) && NoneEmpty(c.domainSuffixes) && NoneEmpty(Pairs(c.customDn)) && NoneEmpty(c.extraSans)
  {
    assert forall i :: 0 <= i < |c.customDn| ==> Pairs(c.customDn)[i] != "";
  }

  lemma EntriesRead(x: Subject, c: Config)
    requires NoneEmpty(c.ous) && NoneEmpty(c.domainSuffixes) && NoneEmpty(Pairs(c.customDn)) && NoneEmpty(c.extraSans)
    requires x.ous == x.alts == x.xdn == x.xsans == []
    ensures AssignAll(x, ConfEntries(c))
         == Subject(c.country, c.state, c.locality, c.org, c.ous, c.domainSuffix, c.domainSuffixes,
                    Pairs(c.customDn), c.extraSans)
  {
    var x0 := x.(c := c.country, st := c.state, l := c.locality, o := c.org);
    var h1 := HeadEntries(c) + ListEntries(OU, c.ous);
    assert AssignAll(x, h1) == x0.(ous := c.ous) by {
      HeadRead(x, c);
      Chain(x, HeadEntries(c), x0, OU, c.ous);
    }
    SuffixRead(x, h1, c.domainSuffix);
    TailRead(x, h1 + [Entry(Some(Suffix), c.domainSuffix)], x0.(ous := c.ous, suffix := c.domainSuffix),
             c.domainSuffixes, Pairs(c.customDn), c.extraSans);
  }

  lemma TailRead(x: Subject, h: seq<Entry>, y: Subject, alts: seq<string>, xdn: seq<string>, xsans: seq<string>)
    requires NoneEmpty(alts) && NoneEmpty(xdn) && NoneEmpty(xsans)
    requires AssignAll(x, h) == y && y.alts == y.xdn == y.xsans == []
    ensures AssignAll(x, h + ListEntries(SuffixAlt, alts) + ListEntries(XDN, xdn) + ListEntries(XSAN, xsans))
         == y.(alts := alts, xdn := xdn, xsans := xsans)
  {
    var y1 := Append(y, SuffixAlt, alts);
    var y2 := Append(y1, XDN, xdn);
    Chain(x, h, y, SuffixAlt, alts);
    Chain(x, h + ListEntries(SuffixAlt, alts), y1, XDN, xdn);
    Chain(x, h + ListEntries(SuffixAlt, alts) + ListEntries(XDN, xdn), y2, XSAN, xsans);
  }

  /** Reading the rendered lines gives every value and list back, whatever the
      variables held, once the lists are cleared. */
  lemma LinesRead(x: Subject, c: Config)
    requires SafeConfig(c) && x.ous == x.alts == x.xdn == x.xsans == []
    ensures AssignAll(x, Entries(ConfLines(c)))
         == Subject(c.country, c.state, c.locality, c.org, c.ous, c.domainSuffix, c.domainSuffixes,
                    Pairs(c.customDn), c.extraSans)
  {
    EntriesOfConf(c);
    SafeNoneEmpty(c);
    EntriesRead(x, c);
  }

  lemma PairRead(f: DnField)
    requires SafeField(f)
    ensures SplitDn(f.field + ":" + f.value) == f
  {
    assert forall i :: 0 <= i < |f.field| ==> In(FieldChars, f.field[i]);
    IndexAfter(f.field, ':', f.value);
    assert f.field + ":" + f.value == f.field + [':'] + f.value;
  }

  lemma PairsRead(fields: seq<DnField>)
    requires SafeDn(fields)
    ensures Whole(SplitAll(Pairs(fields))) == fields
  {
    var xdn := Pairs(fields);
    forall i | 0 <= i < |fields| ensures SafeField(fields[i]) && SplitDn(xdn[i]) == fields[i] { PairRead(fields[i]); }
    assert SplitAll(xdn) == fields;
    WholeShape(fields);
  }

  lemma SafeFree(s: string, chars: Charset)
    requires AllOf(s, chars)
    ensures Free(s, '\n')
  {
    forall i | 0 <= i < |s| ensures s[i] != '\n' { assert In(chars, s[i]); }
  }

  lemma TaggedFree(key: Key, values: seq<string>, chars: Charset)
    requires SafeList(values, chars)
    ensures forall i :: 0 <= i < |values| ==> Free(Tagged(key, values)[i], '\n')
  {
    forall i | 0 <= i < |values| ensures Free(Tagged(key, values)[i], '\n') { LineFree(key, values[i], chars); }
  }

  lemma LineFree(key: Key, value: string, chars: Charset)
    requires AllOf(value, chars)
    ensures Free(Line(key, value), '\n')
  {
    SafeFree(value, chars);
  }

  lemma PairsFree(fields: seq<DnField>)
    requires SafeDn(fields)
    ensures forall i :: 0 <= i < |fields| ==> Free(Tagged(XDN, Pairs(fields))[i], '\n')
  {
    forall i | 0 <= i < |fields| ensures Free(Tagged(XDN, Pairs(fields))[i], '\n') {
      assert SafeField(fields[i]);
      SafeFree(fields[i].field, FieldChars);
      SafeFree(fields[i].value, ValueChars);
    }
  }

  lemma LinesFree(c: Config)
    requires SafeConfig(c)
    ensures forall i :: 0 <= i < |ConfLines(c)| ==> Free(ConfLines(c)[i], '\n')
  {
    LineFree(C, c.country, ValueChars);
    LineFree(ST, c.state, ValueChars);
    LineFree(L, c.locality, ValueChars);
    LineFree(O, c.org, ValueChars);
    LineFree(Suffix, c.domainSuffix, DomainChars);
    TaggedFree(OU, c.ous, ValueChars);
    TaggedFree(SuffixAlt, c.domainSuffixes, DomainChars);
    TaggedFree(XSAN, c.extraSans, SanChars);
    PairsFree(c.customDn);
  }

  lemma SafeReadBack(c: Config, x: Subject)
    requires SafeConfig(c)
    ensures Meaning(Load(x, Join(ConfLines(c), "\n") + "\n")) == c
  {
    var text := Join(ConfLines(c), "\n") + "\n";
    assert Lines(text) == ConfLines(c) by {
      LinesFree(c);
      JoinIsUnlines(ConfLines(c));
      LinesOfUnlines(ConfLines(c));
    }
    LinesRead(x.(ous := [], alts := [], xdn := [], xsans := []), c);
    PairsRead(c.customDn);
  }

  /** The helper reads the rendered file back as the cleaned configuration, whatever
      its variables held before. */
  lemma RenderRoundTrip(cfg: Config, x: Subject)
    ensures Meaning(Load(x, Render(cfg))) == Clean(cfg)
  {
    CleanIsSafe(cfg);
    SafeReadBack(Clean(cfg), x);
  }

  // ----------------------------------------------------------------------------- cleaning

  /** The loop over one list of the configuration. */
  method CleanItems(items: seq<string>, chars: Charset) returns (out: seq<string>)
    ensures out == CleanList(items, chars)
  {
    out := [];
    var seen := {};
    for i := 0 to |items|
      invariant out == Distinct(Sanitized(items, chars)[..i])
      invariant forall s :: Lower(s) in seen <==> SeenIn(out, s)
    {
      var s := Sanitize(items[i], chars);
      assert Sanitized(items, chars)[..i + 1][..i] == Sanitized(items, chars)[..i];
      if s != "" && Lower(s) !in seen {
        SeenMore(out, s);
        seen, out := seen + {Lower(s)}, out + [s];
      }
    }
    assert Sanitized(items, chars)[..|items|] == Sanitized(items, chars);
    out := AtMost(out, MAX_ITEMS);
  }

  lemma SeenMore(out: seq<string>, s: string)
    ensures forall t :: SeenIn(out + [s], t) <==> SeenIn(out, t) || Lower(t) == Lower(s)
  {
    assert (out + [s])[|out|] == s;
    assert forall i :: 0 <= i < |out| ==> (out + [s])[i] == out[i];
  }

  method CleanDnItems(items: seq<DnField>) returns (out: seq<DnField>)
    ensures out == CleanDn(items)
  {
    out := [];
    ghost var clean := CleanFields(items);
    for i := 0 to |items|
      invariant out == Whole(clean[..i])
    {
      assert clean[..i + 1][..i] == clean[..i];
      var f := CleanField(items[i]);
      if f.field != "" && f.value != "" { out := out + [f]; }
    }
    assert clean[..|items|] == clean;
    out := AtMost(out, MAX_ITEMS);
  }

  method CleanConfig(cfg: Config) returns (c: Config)
    ensures c == Clean(cfg)
  {
    var ous := CleanItems(cfg.ous, ValueChars);
    var customDn := CleanDnItems(cfg.customDn);
    var extraSans := CleanItems(cfg.extraSans, SanChars);
    var suffixes := CleanItems(cfg.domainSuffixes, DomainChars);
    c := Config(Sanitize(cfg.country, ValueChars), Sanitize(cfg.state, ValueChars), Sanitize(cfg.locality, ValueChars),
                Sanitize(cfg.org, ValueChars), ous, Sanitize(cfg.domainSuffix, DomainChars), suffixes, customDn,
                extraSans);
  }
}
