/** 8.3 aliases: how one is made from a real name, and the collision suffix. Names are ASCII. */
module Names {

  predicate Legal(c: char) {
    || 'A' <= c <= 'Z'
    || '0' <= c <= '9'
    || c == '_' || c == '!' || c == '@' || c == '#' || c == '$' || c == '%' || c == '^' || c == '&'
    || c == '(' || c == ')' || c == '-' || c == '{' || c == '}' || c == '\'' || c == '`' || c == '~'
  }

  const LETTERS := "ABCDEFGHIJKLMNOPQRSTUVWXYZ"
  const DIGITS := "0123456789"
  const SPECIALS := "_!@#$%^&()-{}'`~"

  lemma LettersAreListed(c: char)
    ensures 'A' <= c <= 'Z' <==> c in LETTERS
  {
    if 'A' <= c <= 'Z' { assert LETTERS[c as int - 'A' as int] == c; }
  }

  lemma DigitsAreListed(c: char)
    ensures '0' <= c <= '9' <==> c in DIGITS
  {
    if '0' <= c <= '9' { assert DIGITS[c as int - '0' as int] == c; }
  }

  /** The legal characters, listed. */
  lemma LegalIsListed(c: char)
    ensures Legal(c) <==> c in LETTERS + DIGITS + SPECIALS
  {
    LettersAreListed(c);
    DigitsAreListed(c);
    hide LETTERS, DIGITS;
  }

  function UpperChar(c: char): char {
    if 'a' <= c <= 'z' then (c as int - 32) as char else c
  }

  function LowerChar(c: char): char {
    if 'A' <= c <= 'Z' then (c as int + 32) as char else c
  }

  function Upper(s: string): (r: string)
    ensures |r| == |s|
  {
    if s == [] then [] else Upper(s[..|s| - 1]) + [UpperChar(s[|s| - 1])]
  }

  function Lower(s: string): (r: string)
    ensures |r| == |s|
  {
    if s == [] then [] else Lower(s[..|s| - 1]) + [LowerChar(s[|s| - 1])]
  }

  lemma {:induction false} UpperAt(s: string, i: nat)
    requires i < |s|
    ensures Upper(s)[i] == UpperChar(s[i])
  {
    if i < |s| - 1 {
      UpperAt(s[..|s| - 1], i);
    }
  }

  /** Equal up to case. */
  predicate SameName(a: string, b: string) { Lower(a) == Lower(b) }

  lemma {:induction false} UpperComparesLikeLower(a: string, b: string)
    ensures Upper(a) == Upper(b) <==> SameName(a, b)
  {
    if a != [] && |a| == |b| {
      var n := |a| - 1;
      UpperComparesLikeLower(a[..n], b[..n]);
      assert UpperChar(a[n]) == UpperChar(b[n]) <==> LowerChar(a[n]) == LowerChar(b[n]);
      assert Upper(a)[..n] == Upper(a[..n]) && Upper(b)[..n] == Upper(b[..n]);
      assert Lower(a)[..n] == Lower(a[..n]) && Lower(b)[..n] == Lower(b[..n]);
      assert Upper(a)[n] == UpperChar(a[n]) && Upper(b)[n] == UpperChar(b[n]);
      assert Lower(a)[n] == LowerChar(a[n]) && Lower(b)[n] == LowerChar(b[n]);
    }
  }

  /** The index of the last c, or -1. */
  function RFind(s: string, c: char): (i: int)
    ensures -1 <= i < |s|
    ensures i >= 0 ==> s[i] == c
    ensures forall k :: i < k < |s| ==> s[k] != c
  {
    if s == [] then -1
    else if s[|s| - 1] == c then |s| - 1
    else RFind(s[..|s| - 1], c)
  }

  function KeepLegal(s: string): (r: string)
    ensures forall c :: c in r ==> Legal(c)
  {
    if s == [] then []
    else if Legal(s[0]) then [s[0]] + KeepLegal(s[1..])
    else KeepLegal(s[1..])
  }

  /** What is kept of two strings joined is what is kept of each; of one character, itself or nothing. */
  lemma {:induction false} KeepLegalJoins(a: string, b: string)
    ensures KeepLegal(a + b) == KeepLegal(a) + KeepLegal(b)
  {
    if a == [] {
      assert a + b == b;
    } else {
      assert (a + b)[1..] == a[1..] + b;
      KeepLegalJoins(a[1..], b);
    }
  }

  lemma KeepLegalOne(c: char)
    ensures KeepLegal([c]) == if Legal(c) then [c] else []
  {
    assert KeepLegal([]) == [];
  }

  /** s[:n] */
  function Take(s: string, n: nat): (r: string)
    ensures r <= s && |r| == if |s| <= n then |s| else n
  {
    if |s| <= n then s else s[..n]
  }

  // ----- The shape of an alias -----

  predicate AllLegal(s: string) { forall c :: c in s ==> Legal(c) }

  predicate ValidParts(base: string, ext: string) {
    1 <= |base| <= 8 && |ext| <= 3 && AllLegal(base) && AllLegal(ext)
  }

  function Join83(base: string, ext: string): string {
    if ext == [] then base else base + "." + ext
  }

  /** A non-empty base of at most 8 legal characters and, behind a dot, an extension of at most 3. */
  ghost predicate ValidAlias(a: string) {
    exists base, ext :: ValidParts(base, ext) && a == Join83(base, ext)
  }

  // ----- _name_to_83 -----

  function BaseAndExt(name: string): (string, string) {
    var n := Upper(name);
    var dot := RFind(n, '.');
    if dot > 0 then (n[..dot], n[dot + 1..]) else (n, [])
  }

  function BaseOf(name: string): (base: string)
    ensures 1 <= |base| <= 8 && AllLegal(base)
  {
    var base := Take(KeepLegal(BaseAndExt(name).0), 8);
    if base == [] then "_" else base
  }

  function ExtOf(name: string): (ext: string)
    ensures |ext| <= 3 && AllLegal(ext)
  {
    Take(KeepLegal(BaseAndExt(name).1), 3)
  }

  function NameTo83(name: string): string {
    Join83(BaseOf(name), ExtOf(name))
  }

  /** The base that a text leaves: its first eight legal characters, or "_". */
  function BaseField(text: string): (base: string)
    ensures 1 <= |base| <= 8 && AllLegal(base)
  {
    if KeepLegal(Upper(text)) == [] then "_" else Take(KeepLegal(Upper(text)), 8)
  }

  lemma {:induction false} UpperJoins(a: string, b: string)
    ensures Upper(a + b) == Upper(a) + Upper(b)
  {
    if b == [] {
      assert a + b == a;
    } else {
      var n := |b| - 1;
      assert (a + b)[..|a| + n] == a + b[..n];
      UpperJoins(a, b[..n]);
    }
  }

  lemma UpperHasNoDot(s: string)
    requires '.' !in s
    ensures '.' !in Upper(s)
  {
    forall i | 0 <= i < |s|
      ensures Upper(s)[i] != '.'
    {
      UpperAt(s, i);
      assert s[i] in s;
    }
  }

  lemma {:induction false} LastDotAt(a: string, b: string)
    requires '.' !in b
    ensures RFind(a + "." + b, '.') == |a|
  {
    var s := a + "." + b;
    if b != [] {
      var n := |b| - 1;
      assert s[|s| - 1] == b[n] && b[n] in b;
      assert s[..|s| - 1] == a + "." + b[..n];
      LastDotAt(a, b[..n]);
    }
  }

  lemma UpperParts(text: string, ext: string)
    ensures Upper(text + "." + ext) == Upper(text) + "." + Upper(ext)
  {
    UpperJoins(text + ".", ext);
    UpperJoins(text, ".");
    UpperAt(".", 0);
    assert Upper(".") == ".";
    hide Upper;
  }

  /** The alias of a name with an extension, without a suffix: the last dot that is not the first character divides. */
  lemma ExtendedName83(text: string, ext: string)
    requires text != [] && '.' !in ext
    ensures NameTo83(text + "." + ext) == Join83(BaseField(text), Take(KeepLegal(Upper(ext)), 3))
  {
    hide KeepLegal, Upper, RFind;
    UpperParts(text, ext);
    UpperHasNoDot(ext);
    LastDotAt(Upper(text), Upper(ext));
    var n := Upper(text) + "." + Upper(ext);
    assert n[..|text|] == Upper(text) && n[|text| + 1..] == Upper(ext);
  }

  /** A name without a dot behind its first character has no extension. */
  lemma PlainName83(name: string)
    requires name == [] || '.' !in name[1..]
    ensures NameTo83(name) == BaseField(name)
  {
    hide KeepLegal;
    forall k | 0 < k < |name|
      ensures Upper(name)[k] != '.'
    {
      UpperAt(name, k);
      assert name[k] == name[1..][k - 1];
    }
    assert KeepLegal([]) == [] by { KeepsLegal([]); }
  }

  // ----- _tilde_suffix -----

  function DigitChar(d: nat): char
    requires d < 10
  {
    ('0' as int + d) as char
  }

  function Digits(n: nat): (s: string)
    ensures |s| >= 1
    ensures forall c :: c in s ==> '0' <= c <= '9'
    ensures n < 10 ==> |s| == 1
    ensures n < 100 ==> |s| <= 2
    ensures n < 1000 ==> |s| <= 3
    ensures n < 10000 ==> |s| <= 4
  {
    if n < 10 then [DigitChar(n)] else Digits(n / 10) + [DigitChar(n % 10)]
  }

  lemma {:induction false} DigitsInjective(m: nat, n: nat)
    requires Digits(m) == Digits(n)
    ensures m == n
  {
    var s, t := Digits(m), Digits(n);
    assert s[|s| - 1] == t[|t| - 1];
    assert m % 10 == n % 10;
    if m >= 10 && n >= 10 {
      assert Digits(m / 10) == s[..|s| - 1] == Digits(n / 10);
      DigitsInjective(m / 10, n / 10);
    }
  }

  /** The number that decimal digits stand for. */
  function Value(s: string): int {
    if s == [] then 0 else 10 * Value(s[..|s| - 1]) + (s[|s| - 1] as int - '0' as int)
  }

  /** The digits are those of the number in decimal, without leading zeros. */
  lemma {:induction false} DigitsAreDecimal(n: nat)
    ensures Value(Digits(n)) == n
    ensures n > 0 ==> Digits(n)[0] != '0'
  {
    var s := Digits(n);
    if n >= 10 {
      DigitsAreDecimal(n / 10);
      assert s[..|s| - 1] == Digits(n / 10);
    } else {
      assert s[..0] == [];
    }
  }

  function TildeSuffix(alias: string, n: nat): string
    requires n < 10000
  {
    var suffix := "~" + Digits(n);
    var dot := RFind(alias, '.');
    var base := if dot > 0 then alias[..dot] else alias;
    var ext := if dot > 0 then alias[dot..] else [];
    Take(base, 8 - |suffix|) + suffix + ext
  }

  /** The base part of a suffixed alias. */
  function TildeBase(base: string, n: nat): (r: string)
    requires n < 10000
    ensures |r| <= 8
  {
    var suffix := "~" + Digits(n);
    Take(base, 8 - |suffix|) + suffix
  }

  lemma OnlyDot(base: string, ext: string)
    requires ValidParts(base, ext)
    ensures RFind(Join83(base, ext), '.') == if ext == [] then -1 else |base|
  {
    var alias := Join83(base, ext);
    forall i | 0 <= i < |alias|
      ensures alias[i] == '.' <==> ext != [] && i == |base|
    {
      if i < |base| {
        assert alias[i] in base;
      } else if i > |base| {
        assert alias[i] == ext[i - |base| - 1] && alias[i] in ext;
      }
    }
    if ext != [] {
      assert alias[|base|] == '.';
    }
  }

  lemma TildeSuffixParts(base: string, ext: string, n: nat)
    requires ValidParts(base, ext) && n < 10000
    ensures TildeSuffix(Join83(base, ext), n) == Join83(TildeBase(base, n), ext)
    ensures ValidParts(TildeBase(base, n), ext)
  {
    hide Digits, RFind;
    var alias := Join83(base, ext);
    OnlyDot(base, ext);
    if ext != [] {
      assert alias[..|base|] == base && alias[|base|..] == "." + ext;
      var suffix := "~" + Digits(n);
      assert Take(base, 8 - |suffix|) + suffix + ("." + ext) == TildeBase(base, n) + "." + ext;
    }
  }

  /** Behind the last '~' stand the digits, so different numbers give different bases. */
  lemma TildeBaseInjective(base: string, m: nat, n: nat)
    requires m < 10000 && n < 10000 && TildeBase(base, m) == TildeBase(base, n)
    ensures m == n
  {
    hide Digits;
    var s, d, e := TildeBase(base, m), Digits(m), Digits(n);
    assert s[|s| - |d| - 1] == '~' && s[|s| - |e| - 1] == '~';
    assert s[|s| - |d|..] == d && s[|s| - |e|..] == e;
    forall i | |s| - |d| <= i < |s| ensures s[i] != '~' {
      assert s[i] == d[i - (|s| - |d|)] && s[i] in d;
    }
    forall i | |s| - |e| <= i < |s| ensures s[i] != '~' {
      assert s[i] == e[i - (|s| - |e|)] && s[i] in e;
    }
    DigitsInjective(m, n);
  }

  lemma Join83Injective(a: string, b: string, ext: string)
    requires Join83(a, ext) == Join83(b, ext)
    ensures a == b
  {
    if ext != [] {
      var s := Join83(a, ext);
      assert a == s[..|s| - |ext| - 1] == b;
    }
  }

  // ----- The candidates alias_for tries, in order -----

  /** Candidate 0 carries no suffix, candidate n > 0 carries ~n. */
  function Candidate(name: string, n: nat): string
    requires n < 10000
  {
    if n == 0 then NameTo83(name) else TildeSuffix(NameTo83(name), n)
  }

  lemma CandidateIsValid(name: string, n: nat)
    requires n < 10000
    ensures ValidAlias(Candidate(name, n))
  {
    assert ValidParts(BaseOf(name), ExtOf(name));
    TildeSuffixParts(BaseOf(name), ExtOf(name), n);
  }

  lemma CandidatesDiffer(name: string, m: nat, n: nat)
    requires 0 < m < 10000 && 0 < n < 10000 && Candidate(name, m) == Candidate(name, n)
    ensures m == n
  {
    var base, ext := BaseOf(name), ExtOf(name);
    TildeSuffixParts(base, ext, m);
    TildeSuffixParts(base, ext, n);
    Join83Injective(TildeBase(base, m), TildeBase(base, n), ext);
    TildeBaseInjective(base, m, n);
  }

  ghost function SuffixedCandidates(name: string, n: nat): (s: set<string>)
    requires n < 10000
  {
    if n == 0 then {} else SuffixedCandidates(name, n - 1) + {Candidate(name, n)}
  }

  lemma {:induction false} SuffixedCandidateNumber(name: string, n: nat, a: string) returns (k: nat)
    requires n < 10000 && a in SuffixedCandidates(name, n)
    ensures 0 < k <= n && a == Candidate(name, k)
  {
    hide Candidate;
    if a in SuffixedCandidates(name, n - 1) {
      k := SuffixedCandidateNumber(name, n - 1, a);
    } else {
      k := n;
    }
  }

  lemma {:induction false} SuffixedCandidatesCount(name: string, n: nat)
    requires n < 10000
    ensures |SuffixedCandidates(name, n)| == n
  {
    hide Candidate;
    if n > 0 {
      SuffixedCandidatesCount(name, n - 1);
      if Candidate(name, n) in SuffixedCandidates(name, n - 1) {
        var k := SuffixedCandidateNumber(name, n - 1, Candidate(name, n));
        CandidatesDiffer(name, k, n);
      }
    }
  }

  lemma {:induction false} KeepsLegal(s: string)
    requires AllLegal(s)
    ensures KeepLegal(s) == s
  {
    if s != [] {
      assert s[0] in s;
      forall c | c in s[1..] ensures Legal(c) { assert c in s; }
      KeepsLegal(s[1..]);
    }
  }

  /** A name that is an alias up to case is given that alias first. */
  lemma PlainCandidate(name: string, a: string)
    requires ValidAlias(a) && Upper(name) == a
    ensures Candidate(name, 0) == a
  {
    hide Upper, RFind, KeepLegal;
    var base, ext :| ValidParts(base, ext) && a == Join83(base, ext);
    OnlyDot(base, ext);
    KeepsLegal(base);
    KeepsLegal(ext);
    if ext != [] { assert a[..|base|] == base && a[|base| + 1..] == ext; }
    assert KeepLegal([]) == [] by { KeepsLegal([]); }
  }

  /** An alias, already in upper case, is its own upper-case form. */
  lemma AliasIsUpper(a: string)
    requires ValidAlias(a)
    ensures Upper(a) == a
  {
    var base, ext :| ValidParts(base, ext) && a == Join83(base, ext);
    forall i | 0 <= i < |a|
      ensures Upper(a)[i] == a[i]
    {
      UpperAt(a, i);
      if i < |base| {
        assert a[i] in base;
      } else if i > |base| {
        assert a[i] == ext[i - |base| - 1] && a[i] in ext;
      }
    }
  }

  lemma AliasIsNotEmpty(a: string)
    requires ValidAlias(a)
    ensures 1 <= |a| <= 12
  {
  }
}
