/** Saving the subject (put_csr_subject in backend/routes_admin.py) through the helper,
    which checks what it is given and keeps its first 8192 bytes (write_subject in
    helper/certheim_helper.d/00-common.sh). */
module SubjectFile {
  import opened Wrappers
  import opened Text
  import opened CsrSubject
  import opened SubjectConf

  const FILE_LIMIT := 8192

  function Kept(text: string): string {
    AtMost(text, FILE_LIMIT)
  }

  /** The helper's whitelist for one line. */
  predicate AllowedLine(line: string) {
    line == "" ||
    var i := IndexOf(line, '=');
    i < |line| && KeyNamed(line[..i]).Some? && AllowedValue(KeyNamed(line[..i]).value, line[i + 1..])
  }

  /** The helper's character classes, by code. */
  predicate FieldCode(c: char) {
    c as int == 0x2e || 0x30 <= c as int <= 0x39 || 0x41 <= c as int <= 0x5a || 0x61 <= c as int <= 0x7a
  }

  predicate SanCode(c: char) {
    FieldCode(c) || c as int in {0x20, 0x2d, 0x3a, 0x40, 0x5f}
  }

  predicate ValueCode(c: char) {
    SanCode(c) || c as int in {0x26, 0x28, 0x29, 0x2c, 0x2f}
  }

  predicate AllowedValue(key: Key, value: string) {
    match key
    case XDN =>
      var k := IndexOf(value, ':');
      0 < k < |value| && (forall i :: 0 <= i < k ==> FieldCode(value[i]))
      && forall i :: k < i < |value| ==> ValueCode(value[i])
    case XSAN => value != "" && forall i :: 0 <= i < |value| ==> SanCode(value[i])
    case _ => forall i :: 0 <= i < |value| ==> ValueCode(value[i])
  }

  /** The helper and the program allow the same characters; a domain's are fewer. */
  lemma WhitelistsAgree(c: char)
    ensures In(ValueChars, c) <==> ValueCode(c)
    ensures In(FieldChars, c) <==> FieldCode(c)
    ensures In(SanChars, c) <==> SanCode(c)
    ensures In(DomainChars, c) <==> FieldCode(c) || c as int == 0x2d
  {
  }

  /** A line is allowed exactly when it is empty, or a key, '=' and a value of allowed
      characters; an attribute has a field, ':' and a value. */
  lemma LineGrammar(line: string)
    ensures AllowedLine(line) <==>
            line == "" || exists key, value :: line == Name(key) + "=" + value && AllowedValue(key, value)
    ensures AllowedValue(XDN, line) <==>
            exists field, value :: field != "" && AllOf(field, FieldChars) && AllOf(value, ValueChars)
                                   && line == field + ":" + value
  {
    if AllowedLine(line) && line != "" { NamedLine(line); }
    forall key, value | line == Name(key) + "=" + value && AllowedValue(key, value) ensures AllowedLine(line) {
      LineAllowed(key, value);
    }
    if AllowedValue(XDN, line) { SplitPair(line); }
    forall field, value | field != "" && AllOf(field, FieldChars) && AllOf(value, ValueChars)
                          && line == field + ":" + value
      ensures AllowedValue(XDN, line)
    {
      PairOfAllowed(field, value);
    }
  }

  lemma NamedLine(line: string)
    requires AllowedLine(line) && line != ""
    ensures exists key, value :: line == Name(key) + "=" + value && AllowedValue(key, value)
  {
    var i := IndexOf(line, '=');
    var key := KeyNamed(line[..i]).value;
    assert line == Name(key) + "=" + line[i + 1..];
  }

  lemma SplitPair(s: string)
    requires AllowedValue(XDN, s)
    ensures exists field, value :: field != "" && AllOf(field, FieldChars) && AllOf(value, ValueChars)
                                   && s == field + ":" + value
  {
    var k := IndexOf(s, ':');
    var field, value := s[..k], s[k + 1..];
    assert s == field + ":" + value;
    forall i | 0 <= i < |field| ensures In(FieldChars, field[i]) { WhitelistsAgree(s[i]); }
    forall i | 0 <= i < |value| ensures In(ValueChars, value[i]) { WhitelistsAgree(s[k + 1 + i]); }
    assert field != "" && AllOf(field, FieldChars) && AllOf(value, ValueChars);
  }

  /** What follows the last line feed. */
  function Rest(text: string): string
    decreases |text|
  {
    var i := IndexOf(text, '\n');
    if i == |text| then text else Rest(text[i + 1..])
  }

  predicate Accepts(text: string) {
    AllowedLine(Rest(text)) && AllAllowed(Lines(text))
  }

  // ---------------------------------------------------------- what is rendered is accepted

  lemma {:induction false} RestOfUnlines(lines: seq<string>)
    requires forall i :: 0 <= i < |lines| ==> Free(lines[i], '\n')
    ensures Rest(Unlines(lines)) == ""
  {
    if lines == [] {
    } else {
      IndexAfter(lines[0], '\n', Unlines(lines[1..]));
      assert Unlines(lines) == lines[0] + ['\n'] + Unlines(lines[1..]);
      RestOfUnlines(lines[1..]);
    }
  }

  lemma LineAllowed(key: Key, value: string)
    requires AllowedValue(key, value)
    ensures AllowedLine(Line(key, value))
  {
    LineRead(key, value);
  }

  lemma DomainIsValue(s: string)
    requires AllOf(s, DomainChars)
    ensures AllOf(s, ValueChars)
  {
    forall i | 0 <= i < |s| ensures In(ValueChars, s[i]) { assert In(DomainChars, s[i]); }
  }

  lemma PairOfAllowed(field: string, value: string)
    requires field != "" && AllOf(field, FieldChars) && AllOf(value, ValueChars)
    ensures AllowedValue(XDN, field + ":" + value)
  {
    assert forall i :: 0 <= i < |field| ==> In(FieldChars, field[i]);
    IndexAfter(field, ':', value);
    var pair := field + [':'] + value;
    assert field + ":" + value == pair;
    forall i | |field| < i < |pair| ensures ValueCode(pair[i]) { assert In(ValueChars, value[i - |field| - 1]); }
  }

  predicate AllAllowed(lines: seq<string>) {
    forall i :: 0 <= i < |lines| ==> AllowedLine(lines[i])
  }

  lemma TaggedAllowed(key: Key, values: seq<string>)
    requires forall i :: 0 <= i < |values| ==> AllowedValue(key, values[i])
    ensures AllAllowed(Tagged(key, values))
  {
    forall i | 0 <= i < |values| ensures AllowedLine(Tagged(key, values)[i]) { LineAllowed(key, values[i]); }
  }

  lemma OneAllowed(key: Key, value: string)
    requires AllowedValue(key, value)
    ensures AllAllowed([Line(key, value)])
  {
    LineAllowed(key, value);
  }

  lemma HeadAllowed(c: Config)
    requires SafeConfig(c)
    ensures AllAllowed(Head(c)) && AllAllowed([Line(Suffix, c.domainSuffix)])
  {
    var c1, c2, c3, c4 := [Line(C, c.country)], [Line(ST, c.state)], [Line(L, c.locality)], [Line(O, c.org)];
    OneAllowed(C, c.country);
    OneAllowed(ST, c.state);
    OneAllowed(L, c.locality);
    OneAllowed(O, c.org);
    DomainIsValue(c.domainSuffix);
    OneAllowed(Suffix, c.domainSuffix);
    BothAllowed(c1, c2);
    BothAllowed(c1 + c2, c3);
    BothAllowed(c1 + c2 + c3, c4);
    assert Head(c) == c1 + c2 + c3 + c4;
  }

  lemma ListsAllowed(c: Config)
    requires SafeConfig(c)
    ensures AllAllowed(Tagged(OU, c.ous)) && AllAllowed(Tagged(SuffixAlt, c.domainSuffixes))
    ensures AllAllowed(Tagged(XDN, Pairs(c.customDn))) && AllAllowed(Tagged(XSAN, c.extraSans))
  {
    TaggedAllowed(OU, c.ous);
    forall i | 0 <= i < |c.domainSuffixes| ensures AllowedValue(SuffixAlt, c.domainSuffixes[i]) {
      DomainIsValue(c.domainSuffixes[i]);
    }
    TaggedAllowed(SuffixAlt, c.domainSuffixes);
    forall i | 0 <= i < |c.customDn| ensures AllowedValue(XDN, Pairs(c.customDn)[i]) {
      assert SafeField(c.customDn[i]);
      PairOfAllowed(c.customDn[i].field, c.customDn[i].value);
    }
    TaggedAllowed(XDN, Pairs(c.customDn));
    TaggedAllowed(XSAN, c.extraSans);
  }

  lemma BothAllowed(a: seq<string>, b: seq<string>)
    requires AllAllowed(a) && AllAllowed(b)
    ensures AllAllowed(a + b)
  {
  }

  lemma LinesAllowed(c: Config)
    requires SafeConfig(c)
    ensures AllAllowed(ConfLines(c))
  {
    HeadAllowed(c);
    ListsAllowed(c);
    var l1 := Head(c) + Tagged(OU, c.ous);
    var l2 := l1 + [Line(Suffix, c.domainSuffix)];
    var l3 := l2 + Tagged(SuffixAlt, c.domainSuffixes);
    var l4 := l3 + Tagged(XDN, Pairs(c.customDn));
    BothAllowed(Head(c), Tagged(OU, c.ous));
    BothAllowed(l1, [Line(Suffix, c.domainSuffix)]);
    BothAllowed(l2, Tagged(SuffixAlt, c.domainSuffixes));
    BothAllowed(l3, Tagged(XDN, Pairs(c.customDn)));
    BothAllowed(l4, Tagged(XSAN, c.extraSans));
  }

  lemma TextOfSafe(c: Config)
    requires SafeConfig(c)
    ensures Join(ConfLines(c), "\n") + "\n" == Unlines(ConfLines(c))
    ensures Lines(Unlines(ConfLines(c))) == ConfLines(c) && Rest(Unlines(ConfLines(c))) == ""
  {
    LinesFree(c);
    JoinIsUnlines(ConfLines(c));
    LinesOfUnlines(ConfLines(c));
    RestOfUnlines(ConfLines(c));
  }

  /** The helper accepts every rendered configuration that it does not cut. */
  lemma RenderedIsAccepted(cfg: Config)
    ensures |Render(cfg)| <= FILE_LIMIT ==> Accepts(Kept(Render(cfg)))
  {
    CleanIsSafe(cfg);
    TextOfSafe(Clean(cfg));
    LinesAllowed(Clean(cfg));
  }

  lemma AfterFirst(text: string, first: string, more: string)
    requires text == first + ['\n'] + more && Free(first, '\n')
    ensures Rest(text) == Rest(more) && Lines(text) == [first] + Lines(more)
  {
    IndexAfter(first, '\n', more);
  }

  lemma UnlinesFirst(lines: seq<string>, end: string)
    requires lines != []
    ensures Unlines(lines) + end == lines[0] + ['\n'] + (Unlines(lines[1..]) + end)
  {
  }

  lemma {:induction false} RestAfterLines(lines: seq<string>, end: string)
    requires forall i :: 0 <= i < |lines| ==> Free(lines[i], '\n')
    ensures Rest(Unlines(lines) + end) == Rest(end)
  {
    if lines == [] {
      assert Unlines(lines) + end == end;
    } else {
      var text, more := Unlines(lines) + end, Unlines(lines[1..]) + end;
      RestAfterLines(lines[1..], end);
      assert Rest(text) == Rest(more) by {
        UnlinesFirst(lines, end);
        AfterFirst(text, lines[0], more);
      }
    }
  }

  lemma FirstThenRest(s: seq<string>, end: seq<string>)
    requires s != []
    ensures s + end == [s[0]] + (s[1..] + end)
  {
  }

  lemma LinesOfFirst(lines: seq<string>, end: string)
    requires lines != [] && Free(lines[0], '\n')
    ensures Lines(Unlines(lines) + end) == [lines[0]] + Lines(Unlines(lines[1..]) + end)
  {
    UnlinesFirst(lines, end);
    AfterFirst(Unlines(lines) + end, lines[0], Unlines(lines[1..]) + end);
  }

  lemma {:induction false} LinesAfterLines(lines: seq<string>, end: string)
    requires forall i :: 0 <= i < |lines| ==> Free(lines[i], '\n')
    ensures Lines(Unlines(lines) + end) == lines + Lines(end)
  {
    if lines == [] {
      assert Unlines(lines) + end == end;
    } else {
      LinesOfFirst(lines, end);
      LinesAfterLines(lines[1..], end);
      FirstThenRest(lines, Lines(end));
    }
  }

  // ------------------------------------------------------------------ what a cut file loses

  lemma UnlinesCut(first: string, rest: string, n: nat)
    requires |first| < n <= |first| + 1 + |rest|
    ensures (first + ['\n'] + rest)[..n] == first + ['\n'] + rest[..n - |first| - 1]
  {
  }

  /** A cut text is some of the lines and the beginning of the next. */
  lemma {:induction false} CutWithin(lines: seq<string>, n: nat) returns (k: nat, m: nat)
    requires n < |Unlines(lines)|
    ensures k < |lines| && m <= |lines[k]|
    ensures Unlines(lines)[..n] == Unlines(lines[..k]) + lines[k][..m]
  {
    var first, rest := lines[0], lines[1..];
    assert Unlines(lines) == first + ['\n'] + Unlines(rest);
    if n <= |first| {
      k, m := 0, n;
      assert Unlines(lines[..0]) == "";
    } else {
      k, m := CutWithin(rest, n - |first| - 1);
      UnlinesCut(first, Unlines(rest), n);
      assert lines[..k + 1][1..] == rest[..k];
      k := k + 1;
    }
  }

  lemma FreeIsNoLine(s: string)
    requires Free(s, '\n')
    ensures Lines(s) == [] && Rest(s) == s
  {
  }

  lemma CutLosesLines(lines: seq<string>, n: nat) returns (k: nat)
    requires forall i :: 0 <= i < |lines| ==> Free(lines[i], '\n')
    requires n < |Unlines(lines)|
    ensures k < |lines| && Lines(Unlines(lines)[..n]) == lines[..k]
  {
    var m;
    k, m := CutWithin(lines, n);
    LinesAfterLines(lines[..k], lines[k][..m]);
    FreeIsNoLine(lines[k][..m]);
  }

  /** The helper accepts a rendered text, cut or not, exactly when the line cut in the
      middle, if any, is one it allows. */
  lemma CutIsAccepted(cfg: Config)
    ensures Accepts(Kept(Render(cfg))) <==> AllowedLine(Rest(Kept(Render(cfg))))
  {
    CleanIsSafe(cfg);
    TextOfSafe(Clean(cfg));
    LinesAllowed(Clean(cfg));
    LinesFree(Clean(cfg));
    if |Render(cfg)| > FILE_LIMIT {
      var k := CutLosesLines(ConfLines(Clean(cfg)), FILE_LIMIT);
    }
  }

  function Items(x: Subject): nat {
    |x.ous| + |x.alts| + |x.xdn| + |x.xsans|
  }

  function ItemsOf(c: Config): nat {
    |c.ous| + |c.domainSuffixes| + |c.customDn| + |c.extraSans|
  }

  lemma {:induction false} ItemsRead(x: Subject, entries: seq<Entry>, from: nat)
    requires from <= |entries|
    ensures Items(AssignAll(x, entries[..from])) <= Items(AssignAll(x, entries))
    decreases |entries|
  {
    if from == |entries| {
      assert entries[..from] == entries;
    } else {
      ItemsRead(x, entries[..|entries| - 1], from);
      assert entries[..|entries| - 1][..from] == entries[..from];
    }
  }

  lemma {:induction false} WholeIsNoLonger(items: seq<DnField>)
    ensures |Whole(items)| <= |items|
  {
    if items == [] {
    } else {
      WholeIsNoLonger(items[..|items| - 1]);
    }
  }

  lemma {:induction false} ShortLines(lines: seq<string>, length: nat)
    requires forall i :: 0 <= i < |lines| ==> |lines[i]| < length
    ensures |Unlines(lines)| <= |lines| * length
  {
    if lines == [] {
    } else {
      ShortLines(lines[1..], length);
    }
  }

  /** Without domains, attributes and SAN entries to choose from the file is short. */
  lemma FewLinesFit(c: Config)
    requires SafeConfig(c) && c.domainSuffixes == [] && c.customDn == [] && c.extraSans == []
    ensures |Unlines(ConfLines(c))| <= FILE_LIMIT
  {
    var lines := ConfLines(c);
    assert |lines| <= 21;
    assert forall i :: 0 <= i < |lines| ==> |lines[i]| < 143;
    ShortLines(lines, 143);
  }

  lemma LastOfTagged(before: seq<string>, key: Key, values: seq<string>)
    requires values != []
    ensures (before + Tagged(key, values))[|before + Tagged(key, values)| - 1] == Line(key, values[|values| - 1])
  {
  }

  /** The last line of a long file adds an item. */
  lemma LastLine(c: Config) returns (key: Key, value: string)
    requires SafeConfig(c) && |Unlines(ConfLines(c))| > FILE_LIMIT
    ensures ListKey(key) && value != "" && ConfLines(c)[|ConfLines(c)| - 1] == Line(key, value)
  {
    var l2 := Head(c) + Tagged(OU, c.ous) + [Line(Suffix, c.domainSuffix)];
    var l3 := l2 + Tagged(SuffixAlt, c.domainSuffixes);
    var l4 := l3 + Tagged(XDN, Pairs(c.customDn));
    assert ConfLines(c) == l4 + Tagged(XSAN, c.extraSans);
    if c.extraSans != [] {
      key, value := XSAN, c.extraSans[|c.extraSans| - 1];
      LastOfTagged(l4, XSAN, c.extraSans);
    } else if c.customDn != [] {
      key, value := XDN, Pairs(c.customDn)[|c.customDn| - 1];
      LastOfTagged(l3, XDN, Pairs(c.customDn));
    } else if c.domainSuffixes != [] {
      key, value := SuffixAlt, c.domainSuffixes[|c.domainSuffixes| - 1];
      LastOfTagged(l2, SuffixAlt, c.domainSuffixes);
    } else {
      FewLinesFit(c);
    }
  }

  lemma CutLosesItem(x: Subject, entries: seq<Entry>, key: Key, value: string, k: nat)
    requires k < |entries| && entries[|entries| - 1] == Entry(Some(key), value) && ListKey(key) && value != ""
    ensures Items(AssignAll(x, entries[..k])) < Items(AssignAll(x, entries))
  {
    ItemsRead(x, entries[..|entries| - 1], k);
    assert entries[..|entries| - 1][..k] == entries[..k];
  }

  lemma AllItems(c: Config, x: Subject)
    requires SafeConfig(c) && x.ous == x.alts == x.xdn == x.xsans == []
    ensures Items(AssignAll(x, Entries(ConfLines(c)))) == ItemsOf(c)
  {
    LinesRead(x, c);
  }

  lemma ItemsMeant(x: Subject)
    ensures ItemsOf(Meaning(x)) <= Items(x)
  {
    WholeIsNoLonger(SplitAll(x.xdn));
  }

  lemma EntriesPrefix(lines: seq<string>, k: nat)
    requires k <= |lines|
    ensures Entries(lines[..k]) == Entries(lines)[..k]
  {
  }

  lemma FewerLinesReadLess(x: Subject, lines: seq<string>, key: Key, value: string, k: nat)
    requires k < |lines| && lines[|lines| - 1] == Line(key, value) && ListKey(key) && value != ""
    ensures Items(AssignAll(x, Entries(lines[..k]))) < Items(AssignAll(x, Entries(lines)))
  {
    LineRead(key, value);
    EntriesPrefix(lines, k);
    CutLosesItem(x, Entries(lines), key, value, k);
  }

  /** Reading a file that was cut gives fewer items than were rendered. */
  lemma LongFileLoses(c: Config, x: Subject)
    requires SafeConfig(c) && |Unlines(ConfLines(c))| > FILE_LIMIT
    ensures ItemsOf(Meaning(Load(x, Unlines(ConfLines(c))[..FILE_LIMIT]))) < ItemsOf(c)
  {
    var x0 := x.(ous := [], alts := [], xdn := [], xsans := []);
    LinesFree(c);
    var key, value := LastLine(c);
    var k := CutLosesLines(ConfLines(c), FILE_LIMIT);
    FewerLinesReadLess(x0, ConfLines(c), key, value, k);
    AllItems(c, x0);
    ItemsMeant(Load(x, Unlines(ConfLines(c))[..FILE_LIMIT]));
  }

  /** The helper reads back what was rendered if and only if it did not cut it. */
  lemma CutFileDiffers(cfg: Config, x: Subject)
    ensures Meaning(Load(x, Kept(Render(cfg)))) == Clean(cfg) <==> |Render(cfg)| <= 8192
  {
    CleanIsSafe(cfg);
    TextOfSafe(Clean(cfg));
    if |Render(cfg)| > FILE_LIMIT {
      LongFileLoses(Clean(cfg), x);
    } else {
      RenderRoundTrip(cfg, x);
    }
  }

  function Word(i: nat, n: nat): string {
    seq(n, j requires 0 <= j < n => if j == i then 'b' else 'a')
  }

  function Words(): seq<string> {
    seq(16, i requires 0 <= i < 16 => Word(i, 128))
  }

  /** A configuration with every list full. */
  function FullConfig(): Config {
    Config("", "", "", "", Words(), "", Words(),
           seq(16, i requires 0 <= i < 16 => DnField(Word(i, 64), Word(i, 128))), Words())
  }

  lemma WordsSafe(chars: Charset)
    requires !chars.LowerChars?
    ensures SafeList(Words(), chars) && TrimmedList(Words())
  {
    forall i | 0 <= i < 16 ensures Safe(Words()[i], chars) && Trimmed(Words()[i]) && Lower(Words()[i])[i] == 'b' {
      assert AllOf(Word(i, 128), chars);
    }
    forall i, j | 0 <= i < j < 16 ensures Lower(Words()[i]) != Lower(Words()[j]) {
      assert Lower(Words()[j])[i] == 'a';
    }
  }

  lemma FullIsClean()
    ensures Clean(FullConfig()) == FullConfig() && SafeConfig(FullConfig())
  {
    WordsSafe(ValueChars);
    WordsSafe(DomainChars);
    WordsSafe(SanChars);
    assert SafeDn(FullConfig().customDn) && TrimmedDn(FullConfig().customDn);
    SafeCleaned(FullConfig());
  }

  lemma {:induction false} UnlinesConcat(a: seq<string>, b: seq<string>)
    ensures Unlines(a + b) == Unlines(a) + Unlines(b)
  {
    if a == [] {
      assert a + b == b;
    } else {
      assert (a + b)[1..] == a[1..] + b;
      UnlinesConcat(a[1..], b);
    }
  }

  lemma {:induction false} EqualLines(lines: seq<string>, length: nat)
    requires forall i :: 0 <= i < |lines| ==> |lines[i]| == length
    ensures |Unlines(lines)| == |lines| * (length + 1)
  {
    if lines == [] {
    } else {
      EqualLines(lines[1..], length);
    }
  }

  /** The lines before the SAN entries. */
  function Before(c: Config): seq<string> {
    Head(c) + Tagged(OU, c.ous) + [Line(Suffix, c.domainSuffix)] + Tagged(SuffixAlt, c.domainSuffixes)
    + Tagged(XDN, Pairs(c.customDn))
  }

  lemma BeforeLength(c: Config)
    ensures |Unlines(Before(c))|
         == |Unlines(Head(c))| + |Unlines(Tagged(OU, c.ous))| + |Line(Suffix, c.domainSuffix)| + 1
            + |Unlines(Tagged(SuffixAlt, c.domainSuffixes))| + |Unlines(Tagged(XDN, Pairs(c.customDn)))|
  {
    var l1 := Head(c) + Tagged(OU, c.ous);
    var l2 := l1 + [Line(Suffix, c.domainSuffix)];
    var l3 := l2 + Tagged(SuffixAlt, c.domainSuffixes);
    UnlinesConcat(Head(c), Tagged(OU, c.ous));
    UnlinesConcat(l1, [Line(Suffix, c.domainSuffix)]);
    UnlinesConcat(l2, Tagged(SuffixAlt, c.domainSuffixes));
    UnlinesConcat(l3, Tagged(XDN, Pairs(c.customDn)));
    assert Unlines([Line(Suffix, c.domainSuffix)]) == Line(Suffix, c.domainSuffix) + "\n";
  }

  lemma HeadLength(c: Config)
    requires c.country == c.state == c.locality == c.org == ""
    ensures |Unlines(Head(c))| == 13
  {
    var c1, c2, c3, c4 := [Line(C, "")], [Line(ST, "")], [Line(L, "")], [Line(O, "")];
    assert Head(c) == c1 + c2 + c3 + c4;
    EqualLines(c1, 2);
    EqualLines(c2, 3);
    EqualLines(c3, 2);
    EqualLines(c4, 2);
    UnlinesConcat(c1, c2);
    UnlinesConcat(c1 + c2, c3);
    UnlinesConcat(c1 + c2 + c3, c4);
  }

  lemma TaggedLength(key: Key, values: seq<string>, n: nat)
    requires forall i :: 0 <= i < |values| ==> |values[i]| == n
    ensures |Unlines(Tagged(key, values))| == |values| * (|Name(key)| + n + 2)
  {
    EqualLines(Tagged(key, values), |Name(key)| + 1 + n);
  }

  lemma WordsLength(key: Key, n: nat)
    requires n <= 16
    ensures |Unlines(Tagged(key, Words()[..n]))| == n * (|Name(key)| + 130)
  {
    TaggedLength(key, Words()[..n], 128);
  }

  lemma PairsLength(c: Config)
    requires c == FullConfig()
    ensures |Unlines(Tagged(XDN, Pairs(c.customDn)))| == 16 * 198
  {
    TaggedLength(XDN, Pairs(c.customDn), 193);
  }

  lemma FullLengths(c: Config)
    requires c == FullConfig()
    ensures |Unlines(Before(c))| == 7660
    ensures |Unlines(Tagged(XSAN, c.extraSans))| == 2144 && |Unlines(Tagged(XSAN, c.extraSans[..3]))| == 402
  {
    assert Words()[..16] == Words();
    WordsLength(OU, 16);
    WordsLength(SuffixAlt, 16);
    PairsLength(c);
    WordsLength(XSAN, 16);
    WordsLength(XSAN, 3);
    HeadLength(c);
    BeforeLength(c);
  }

  lemma CutThere(a: string, b: string, c: string, d: string, m: nat)
    requires m <= |c|
    ensures (a + (b + (c + d)))[..|a| + |b| + m] == a + (b + c[..m])
  {
  }

  lemma RestAfterBoth(text: string, a: seq<string>, b: seq<string>, end: string)
    requires forall i :: 0 <= i < |a| ==> Free(a[i], '\n')
    requires forall i :: 0 <= i < |b| ==> Free(b[i], '\n')
    requires Free(end, '\n') && text == Unlines(a) + (Unlines(b) + end)
    ensures Rest(text) == end
  {
    FreeIsNoLine(end);
    RestAfterLines(b, end);
    RestAfterLines(a, Unlines(b) + end);
  }

  lemma BeforeFree(c: Config)
    requires SafeConfig(c)
    ensures forall i :: 0 <= i < |Before(c)| ==> Free(Before(c)[i], '\n')
  {
    LinesFree(c);
    assert forall i :: 0 <= i < |Before(c)| ==> Before(c)[i] == ConfLines(c)[i];
  }

  lemma SansSplit(sans: seq<string>, k: nat) returns (rest: string)
    requires k < |sans|
    ensures Unlines(Tagged(XSAN, sans)) == Unlines(Tagged(XSAN, sans[..k])) + (Line(XSAN, sans[k]) + rest)
  {
    var lines := Tagged(XSAN, sans);
    assert lines == Tagged(XSAN, sans[..k]) + lines[k..];
    UnlinesConcat(Tagged(XSAN, sans[..k]), lines[k..]);
    rest := "\n" + Unlines(lines[k..][1..]);
    assert Unlines(lines[k..]) == Line(XSAN, sans[k]) + rest;
  }

  /** Cut in the value of a SAN entry, the text ends in a line the helper allows. */
  lemma CutInSan(c: Config, k: nat, m: nat)
    requires SafeConfig(c) && k < |c.extraSans| && 0 < m <= |c.extraSans[k]|
    ensures var n := |Unlines(Before(c))| + |Unlines(Tagged(XSAN, c.extraSans[..k]))| + 5 + m;
            n <= |Unlines(ConfLines(c))| && AllowedLine(Rest(Unlines(ConfLines(c))[..n]))
  {
    var before, sans, line := Before(c), Tagged(XSAN, c.extraSans[..k]), Line(XSAN, c.extraSans[k]);
    var end := Line(XSAN, c.extraSans[k][..m]);
    UnlinesConcat(before, Tagged(XSAN, c.extraSans));
    assert ConfLines(c) == before + Tagged(XSAN, c.extraSans);
    var rest := SansSplit(c.extraSans, k);
    CutThere(Unlines(before), Unlines(sans), line, rest, 5 + m);
    assert line[..5 + m] == end;
    BeforeFree(c);
    TaggedFree(XSAN, c.extraSans[..k], SanChars);
    assert Safe(c.extraSans[k], SanChars);
    LineFree(XSAN, c.extraSans[k][..m], SanChars);
    LineAllowed(XSAN, c.extraSans[k][..m]);
    RestAfterBoth(Unlines(ConfLines(c))[..|Unlines(before)| + |Unlines(sans)| + 5 + m], before, sans, end);
  }

  /** A full configuration is clean, does not fit the file, and is accepted by the helper
      all the same. */
  lemma FullIsCut(c: Config)
    requires c == FullConfig()
    ensures Clean(c) == c && |Render(c)| == 9804 > FILE_LIMIT && Accepts(Kept(Render(c)))
  {
    FullIsClean();
    TextOfSafe(c);
    FullLengths(c);
    UnlinesConcat(Before(c), Tagged(XSAN, c.extraSans));
    CutInSan(c, 3, 125);
    CutIsAccepted(c);
  }

  // -------------------------------------------------------------- stored and read back

  lemma {:induction false} DistinctIsNoLonger(items: seq<string>)
    ensures |Distinct(items)| <= |items|
  {
    if items == [] {
    } else {
      DistinctIsNoLonger(items[..|items| - 1]);
    }
  }

  lemma ListHasNoMore(items: seq<string>, chars: Charset)
    ensures |CleanList(items, chars)| <= |items|
  {
    DistinctIsNoLonger(Sanitized(items, chars));
  }

  lemma DnHasNoMore(items: seq<DnField>)
    ensures |CleanDn(items)| <= |items|
  {
    WholeIsNoLonger(CleanFields(items));
  }

  lemma CleanHasNoMore(c: Config)
    ensures ItemsOf(Clean(c)) <= ItemsOf(c)
  {
    ListHasNoMore(c.ous, ValueChars);
    ListHasNoMore(c.domainSuffixes, DomainChars);
    ListHasNoMore(c.extraSans, SanChars);
    DnHasNoMore(c.customDn);
  }

  /** What was stored and what the helper reads are the same exactly when the file is
      not cut and every stored value is trimmed. */
  lemma StoredAndReadAgree(cfg: Config, x: Subject)
    ensures Meaning(Load(x, Kept(Render(Clean(cfg))))) == Clean(cfg)
            <==> |Render(Clean(cfg))| <= 8192 && TrimmedConfig(Clean(cfg))
  {
    var stored := Clean(cfg);
    CleanIsSafe(stored);
    TextOfSafe(Clean(stored));
    if |Render(stored)| > FILE_LIMIT {
      LongFileLoses(Clean(stored), x);
      CleanHasNoMore(stored);
    } else {
      CutFileDiffers(stored, x);
      CleanSettles(cfg);
    }
  }

  // ------------------------------------------------------------------------------- saving

  /** The dashboard's settings and the helper's file. */
  class SubjectAdmin {
    var settings: Config
    var conf: string

    constructor ()
      ensures settings == Config("", "", "", "", [], "", [], [], []) && conf == ""
    {
      settings, conf := Config("", "", "", "", [], "", [], [], []), "";
    }

    /** Installs the file, unless a line is not allowed or the helper fails. */
    method WriteSubject(text: string, works: bool) returns (ok: bool)
      modifies this`conf
      ensures ok <==> works && Accepts(Kept(text))
      ensures conf == if !ok then old(conf) else if |text| <= 8192 then text else text[..8192]
    {
      ok := works && Accepts(Kept(text));
      if ok { conf := Kept(text); }
    }

    /** Saves a configuration: the helper's file first, then the settings. A file
        within the limit is accepted and read back as the settings cleaned once
        more; so the two agree exactly when, besides, every value is trimmed. */
    method PutCsrSubject(cfg: Config, works: bool) returns (ok: bool)
      modifies this
      ensures !ok ==> settings == old(settings) && conf == old(conf)
      ensures ok ==> works && settings == Clean(cfg) && conf == Kept(Render(settings))
      ensures works && |Render(Clean(cfg))| <= 8192 ==> ok
      ensures ok <==> works && AllowedLine(Rest(Kept(Render(Clean(cfg)))))
      ensures ok ==> forall x :: Meaning(Load(x, conf)) == Clean(settings) <==> |Render(settings)| <= 8192
      ensures ok ==> forall x ::
        Meaning(Load(x, conf)) == settings <==> |Render(settings)| <= 8192 && TrimmedConfig(settings)
    {
      var c := CleanConfig(cfg);
      RenderedIsAccepted(c);
      CutIsAccepted(c);
      ok := WriteSubject(Render(c), works);
      if !ok { return; }
      settings := c;
      forall x
        ensures Meaning(Load(x, conf)) == Clean(c) <==> |Render(c)| <= 8192
        ensures Meaning(Load(x, conf)) == c <==> |Render(c)| <= 8192 && TrimmedConfig(c)
      {
        CutFileDiffers(c, x);
        StoredAndReadAgree(cfg, x);
      }
    }
  }
}
