/** Strings as the program handles them: stripping, filtering, lower case, lines. */
module Text {

  /** Python's str.isspace for the characters the program meets. */
  predicate IsSpace(c: char) {
    c == ' ' || '\t' <= c <= '\r' || 0x1c <= c as int <= 0x1f || 0x2000 <= c as int <= 0x200a
    || c as int in {0x85, 0xa0, 0x1680, 0x2028, 0x2029, 0x202f, 0x205f, 0x3000}
  }

  function StripLeft(s: string): string {
    if s != "" && IsSpace(s[0]) then StripLeft(s[1..]) else s
  }

  function StripRight(s: string): string {
    if s != "" && IsSpace(s[|s| - 1]) then StripRight(s[..|s| - 1]) else s
  }

  function Strip(s: string): string {
    StripRight(StripLeft(s))
  }

  predicate Trimmed(s: string) {
    s == "" || (!IsSpace(s[0]) && !IsSpace(s[|s| - 1]))
  }

  predicate Alnum(c: char) {
    'A' <= c <= 'Z' || 'a' <= c <= 'z' || '0' <= c <= '9'
  }

  /** The character sets of a subject value, a domain, a field name, a SAN entry and a
      part of a user name. */
  datatype Charset = ValueChars | DomainChars | FieldChars | SanChars | LowerChars

  predicate In(chars: Charset, c: char) {
    match chars
    case ValueChars => Alnum(c) || c in {' ', '.', '_', ',', '&', '/', '(', ')', '@', ':', '-'}
    case DomainChars => Alnum(c) || c == '.' || c == '-'
    case FieldChars => Alnum(c) || c == '.'
    case SanChars => Alnum(c) || c in {' ', '.', '_', '@', ':', '-'}
    case LowerChars => 'a' <= c <= 'z' || '0' <= c <= '9'
  }

  /** The characters of s in the set, in order. */
  function Keep(s: string, chars: Charset): string {
    if s == "" then "" else (if In(chars, s[0]) then [s[0]] else []) + Keep(s[1..], chars)
  }

  predicate AllOf(s: string, chars: Charset) {
    forall i :: 0 <= i < |s| ==> In(chars, s[i])
  }

  function AtMost<T>(s: seq<T>, n: nat): seq<T> {
    if |s| <= n then s else s[..n]
  }

  function LowerChar(c: char): char {
    if 'A' <= c <= 'Z' then (c as int + 32) as char else c
  }

  function Lower(s: string): string {
    seq(|s|, i requires 0 <= i < |s| => LowerChar(s[i]))
  }

  lemma {:induction false} StripTrims(s: string)
    ensures Trimmed(Strip(s)) && |Strip(s)| <= |s|
    ensures Trimmed(s) ==> Strip(s) == s
    ensures forall chars :: AllOf(s, chars) ==> AllOf(Strip(s), chars)
  {
    StripLeftTrims(s);
    StripRightTrims(StripLeft(s));
  }

  lemma {:induction false} StripLeftTrims(s: string)
    ensures |StripLeft(s)| <= |s| && s[|s| - |StripLeft(s)|..] == StripLeft(s)
    ensures StripLeft(s) == "" || !IsSpace(StripLeft(s)[0])
  {
    if s == "" || !IsSpace(s[0]) {
    } else {
      StripLeftTrims(s[1..]);
    }
  }

  lemma {:induction false} StripRightTrims(s: string)
    ensures |StripRight(s)| <= |s| && s[..|StripRight(s)|] == StripRight(s)
    ensures StripRight(s) == "" || !IsSpace(StripRight(s)[|StripRight(s)| - 1])
  {
    if s == "" || !IsSpace(s[|s| - 1]) {
    } else {
      StripRightTrims(s[..|s| - 1]);
    }
  }

  lemma {:induction false} KeepsOnly(s: string, chars: Charset)
    ensures AllOf(Keep(s, chars), chars) && |Keep(s, chars)| <= |s|
  {
    if s == "" {
    } else {
      var rest := Keep(s[1..], chars);
      KeepsOnly(s[1..], chars);
      if In(chars, s[0]) {
        assert forall i :: 0 < i < |[s[0]] + rest| ==> ([s[0]] + rest)[i] == rest[i - 1];
      } else {
        assert Keep(s, chars) == rest;
      }
    }
  }

  lemma {:induction false} KeepsAll(s: string, chars: Charset)
    requires AllOf(s, chars)
    ensures Keep(s, chars) == s
  {
    if s == "" {
    } else {
      KeepsAll(s[1..], chars);
      assert s == [s[0]] + s[1..];
    }
  }

  /** Filtering goes character by character, in order. */
  lemma {:induction false} KeepConcat(s: string, t: string, chars: Charset)
    ensures Keep(s + t, chars) == Keep(s, chars) + Keep(t, chars)
  {
    if s == "" {
      assert s + t == t;
    } else {
      assert (s + t)[1..] == s[1..] + t;
      KeepConcat(s[1..], t, chars);
      var head := if In(chars, s[0]) then [s[0]] else [];
      assert head + (Keep(s[1..], chars) + Keep(t, chars)) == (head + Keep(s[1..], chars)) + Keep(t, chars);
    }
  }

  /** A character stays exactly when it is in the set, whatever is around it. */
  lemma KeepEach(s: string, c: char, t: string, chars: Charset)
    ensures Keep(s + [c] + t, chars) == Keep(s, chars) + (if In(chars, c) then [c] else []) + Keep(t, chars)
  {
    KeepConcat(s + [c], t, chars);
    KeepConcat(s, [c], chars);
    assert [c][1..] == "";
  }

  /** Two letters that differ in case only. */
  predicate SameLetter(c: char, d: char) {
    c == d || ('A' <= c <= 'Z' && d as int == c as int + 32) || ('A' <= d <= 'Z' && c as int == d as int + 32)
  }

  /** Two spellings are the same in lower case exactly when they differ in the case of
      letters only. */
  lemma LowerMeans(s: string, t: string)
    ensures Lower(s) == Lower(t) <==> |s| == |t| && forall i :: 0 <= i < |s| ==> SameLetter(s[i], t[i])
  {
    if Lower(s) == Lower(t) {
      assert |s| == |Lower(s)| == |t|;
      forall i | 0 <= i < |s| ensures SameLetter(s[i], t[i]) {
        assert Lower(s)[i] == Lower(t)[i];
      }
    }
  }

  lemma KeepKeeps(s: string, chars: Charset)
    ensures AllOf(Keep(s, chars), chars) && |Keep(s, chars)| <= |s|
    ensures AllOf(s, chars) ==> Keep(s, chars) == s
  {
    KeepsOnly(s, chars);
    if AllOf(s, chars) { KeepsAll(s, chars); }
  }

  // ------------------------------------------------------------------------------- lines

  function Unlines(lines: seq<string>): string {
    if lines == [] then "" else lines[0] + "\n" + Unlines(lines[1..])
  }

  function Join(parts: seq<string>, sep: string): string {
    if parts == [] then "" else if |parts| == 1 then parts[0] else parts[0] + sep + Join(parts[1..], sep)
  }

  lemma {:induction false} JoinIsUnlines(lines: seq<string>)
    requires lines != []
    ensures Join(lines, "\n") + "\n" == Unlines(lines)
  {
    if |lines| > 1 { JoinIsUnlines(lines[1..]); } else { assert Unlines(lines[1..]) == ""; }
  }

  /** Where c first occurs in s; the length of s if it does not. */
  function IndexOf(s: string, c: char): (r: nat)
    ensures r <= |s| && (r < |s| ==> s[r] == c) && forall i :: 0 <= i < r ==> s[i] != c
  {
    if s == "" || s[0] == c then 0 else 1 + IndexOf(s[1..], c)
  }

  /** The lines a reader sees: those that end in a line feed. */
  function Lines(text: string): seq<string>
    decreases |text|
  {
    var i := IndexOf(text, '\n');
    if i == |text| then [] else [text[..i]] + Lines(text[i + 1..])
  }

  predicate Free(s: string, c: char) {
    forall i :: 0 <= i < |s| ==> s[i] != c
  }

  lemma IndexAfter(s: string, c: char, rest: string)
    requires Free(s, c)
    ensures IndexOf(s + [c] + rest, c) == |s|
    ensures (s + [c] + rest)[..|s|] == s && (s + [c] + rest)[|s| + 1..] == rest
  {
    var all := s + [c] + rest;
    assert all[|s|] == c;
    assert forall i :: 0 <= i < |s| ==> all[i] == s[i];
  }

  /** Lines written one after the other are read back as they were. */
  lemma {:induction false} LinesOfUnlines(lines: seq<string>)
    requires forall i :: 0 <= i < |lines| ==> Free(lines[i], '\n')
    ensures Lines(Unlines(lines)) == lines
  {
    if lines == [] {
    } else {
      IndexAfter(lines[0], '\n', Unlines(lines[1..]));
      assert Unlines(lines) == lines[0] + ['\n'] + Unlines(lines[1..]);
      LinesOfUnlines(lines[1..]);
    }
  }
}
