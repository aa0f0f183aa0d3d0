/** The two routes from an 8.3 name to the 11-byte FCB form, and template matching on it. */
module Fcb {
  import opened Bytes
  import opened Names

  const SPACE: byte := 0x20
  const DOT: byte := 0x2E
  const QUESTION: byte := 0x3F
  const BACKSLASH: byte := 0x5C

  /** encode('ascii', errors='replace') */
  function AsciiByte(c: char): byte {
    if c as int < 128 then c as int else QUESTION
  }

  function Ascii(s: string): (r: seq<byte>)
    ensures |r| == |s|
    ensures forall i :: 0 <= i < |s| ==> r[i] == AsciiByte(s[i])
  {
    seq(|s|, i requires 0 <= i < |s| => AsciiByte(s[i]))
  }

  /** s[:n], filled up to n bytes */
  function Pad(s: seq<byte>, n: nat, fill: byte): (r: seq<byte>)
    ensures |r| == n
    ensures forall i :: 0 <= i < n ==> r[i] == if i < |s| then s[i] else fill
  {
    seq(n, i requires 0 <= i < n => if i < |s| then s[i] else fill)
  }

  /** The name field of a directory entry: at most 12 bytes, NUL-padded. */
  function NameField(alias: string): (r: seq<byte>)
    ensures |r| == 12
  {
    Pad(Ascii(alias), 12, 0)
  }

  /** The FCB form of an alias: base and extension, each padded with spaces. */
  function FcbName(base: string, ext: string): (r: seq<byte>)
    ensures |r| == 11
  {
    Pad(Ascii(base), 8, SPACE) + Pad(Ascii(ext), 3, SPACE)
  }

  // ----- name83_to_fcb -----

  /** How far the first loop gets: to the end of the field, a NUL or a dot. */
  function BaseEnd(name12: seq<byte>, i: nat): (j: nat)
    requires i <= |name12|
    ensures i <= j <= |name12|
    ensures forall k :: i <= k < j ==> name12[k] != 0 && name12[k] != DOT
    ensures j < |name12| ==> name12[j] == 0 || name12[j] == DOT
    decreases |name12| - i
  {
    if i < |name12| && name12[i] != 0 && name12[i] != DOT then BaseEnd(name12, i + 1) else i
  }

  function ExtEnd(name12: seq<byte>, i: nat): (j: nat)
    requires i <= |name12|
    ensures i <= j <= |name12|
    ensures forall k :: i <= k < j ==> name12[k] != 0
    ensures j < |name12| ==> name12[j] == 0
    decreases |name12| - i
  {
    if i < |name12| && name12[i] != 0 then ExtEnd(name12, i + 1) else i
  }

  function FcbOfField(name12: seq<byte>): (r: seq<byte>)
    ensures |r| == 11
  {
    var dot := BaseEnd(name12, 0);
    Pad(name12[..dot], 8, SPACE)
    + if dot < |name12| && name12[dot] == DOT
      then Pad(name12[dot + 1..ExtEnd(name12, dot + 1)], 3, SPACE)
      else Pad([], 3, SPACE)
  }

  method Blank(fcb: array<byte>)
    requires fcb.Length == 11
    modifies fcb
    ensures fcb[..] == Pad([], 11, SPACE)
  {
    var k := 0;
    while k < 11
      invariant 0 <= k <= 11
      invariant forall m :: 0 <= m < k ==> fcb[m] == SPACE
    {
      fcb[k] := SPACE;
      k := k + 1;
    }
  }

  /** One turn of a copy loop: position at + j takes the next byte of the run while the field has room. */
  lemma PadGrows(run: seq<byte>, next: byte, n: nat)
    ensures Pad(run + [next], n, SPACE)
            == if |run| < n then Pad(run, n, SPACE)[|run| := next] else Pad(run, n, SPACE)
  {
  }

  method Name83ToFcb(fcb11: array<byte>, name12: seq<byte>)
    requires fcb11.Length == 11 && |name12| == 12
    modifies fcb11
    ensures fcb11[..] == FcbOfField(name12)
  {
    hide Pad;
    Blank(fcb11);
    assert Pad([], 11, SPACE) == Pad([], 8, SPACE) + Pad([], 3, SPACE);
    var i, j := 0, 0;
    while i < 12 && name12[i] != 0 && name12[i] != DOT
      invariant 0 <= i <= 12 && j == (if i < 8 then i else 8)
      invariant BaseEnd(name12, 0) == BaseEnd(name12, i)
      invariant fcb11[..] == Pad(name12[..i], 8, SPACE) + Pad([], 3, SPACE)
    {
      PadGrows(name12[..i], name12[i], 8);
      assert name12[..i + 1] == name12[..i] + [name12[i]];
      if j < 8 {
        fcb11[j] := name12[i];
        j := j + 1;
      }
      i := i + 1;
    }
    if i < 12 && name12[i] == DOT {
      CopyExt(fcb11, name12, i);
    }
  }

  method CopyExt(fcb11: array<byte>, name12: seq<byte>, dot: nat)
    requires fcb11.Length == 11 && |name12| == 12 && dot < 12
    requires fcb11[..] == Pad(name12[..dot], 8, SPACE) + Pad([], 3, SPACE)
    modifies fcb11
    ensures fcb11[..] == Pad(name12[..dot], 8, SPACE) + Pad(name12[dot + 1..ExtEnd(name12, dot + 1)], 3, SPACE)
  {
    hide Pad;
    var i, j := dot + 1, 8;
    while i < 12 && name12[i] != 0
      invariant dot < i <= 12 && j == (if i - dot - 1 < 3 then 8 + i - dot - 1 else 11)
      invariant ExtEnd(name12, dot + 1) == ExtEnd(name12, i)
      invariant fcb11[..] == Pad(name12[..dot], 8, SPACE) + Pad(name12[dot + 1..i], 3, SPACE)
    {
      PadGrows(name12[dot + 1..i], name12[i], 3);
      assert name12[dot + 1..i + 1] == name12[dot + 1..i] + [name12[i]];
      if j < 11 {
        fcb11[j] := name12[i];
        j := j + 1;
      }
      i := i + 1;
    }
  }

  // ----- Normalisation of a path in inthandler -----

  /** The bytes behind the last backslash. */
  function LastComponent(path: seq<byte>): (r: seq<byte>)
    ensures |r| <= |path|
  {
    if path == [] || path[|path| - 1] == BACKSLASH then []
    else LastComponent(path[..|path| - 1]) + [path[|path| - 1]]
  }

  /** The fill loop from position i on: a dot jumps to the extension, bytes past the eleventh are dropped. */
  function Filled(fcb: seq<byte>, i: nat, rest: seq<byte>): (r: seq<byte>)
    requires |fcb| == 11
    ensures |r| == 11
    decreases |rest|
  {
    if rest == [] then fcb
    else if rest[0] == DOT then Filled(fcb, 8, rest[1..])
    else if i < 11 then Filled(fcb[i := rest[0]], i + 1, rest[1..])
    else Filled(fcb, i, rest[1..])
  }

  function Normalised(path: seq<byte>): (r: seq<byte>)
    ensures |r| == 11
  {
    Filled(Pad([], 11, SPACE), 0, LastComponent(path))
  }

  lemma LastComponentGrows(path: seq<byte>, n: nat)
    requires n < |path|
    ensures LastComponent(path[..n + 1]) == if path[n] == BACKSLASH then [] else LastComponent(path[..n]) + [path[n]]
  {
    assert path[..n + 1][..n] == path[..n];
  }

  method BehindLastBackslash(fn1: seq<byte>) returns (start: nat)
    ensures start <= |fn1| && fn1[start..] == LastComponent(fn1)
  {
    hide LastComponent;
    start := 0;
    var n := 0;
    assert LastComponent(fn1[..0]) == [] by { EmptyPath(); assert fn1[..0] == []; }
    while n < |fn1|
      invariant 0 <= start <= n <= |fn1|
      invariant fn1[start..n] == LastComponent(fn1[..n])
    {
      LastComponentGrows(fn1, n);
      if fn1[n] == BACKSLASH {
        start := n + 1;
      } else {
        assert fn1[start..n + 1] == fn1[start..n] + [fn1[n]];
      }
      n := n + 1;
    }
    assert fn1[..n] == fn1;
  }

  lemma EmptyPath()
    ensures LastComponent([]) == []
  {
  }

  /** fn1 is the path without its NUL terminator. */
  method NormaliseFcb(fcb: array<byte>, fn1: seq<byte>)
    requires fcb.Length == 11
    modifies fcb
    ensures fcb[..] == Normalised(fn1)
  {
    hide Pad, LastComponent;
    var start := BehindLastBackslash(fn1);
    Blank(fcb);
    var i, p := 0, start;
    while p < |fn1|
      invariant start <= p <= |fn1| && i <= 11
      invariant Filled(fcb[..], i, fn1[p..]) == Normalised(fn1)
    {
      ghost var before := fcb[..];
      assert fn1[p..][1..] == fn1[p + 1..];
      if fn1[p] == DOT {
        i := 8;
      } else if i < 11 {
        fcb[i] := fn1[p];
        assert fcb[..] == before[i := fn1[p]];
        i := i + 1;
      }
      p := p + 1;
    }
  }

  // ----- The two agree on every alias -----

  lemma LegalByte(c: char)
    requires Legal(c)
    ensures var b := AsciiByte(c);
            b == c as int && b != 0 && b != DOT && b != SPACE && b != QUESTION && b != BACKSLASH
  {
  }

  lemma LegalBytes(s: string, i: nat)
    requires AllLegal(s) && i < |s|
    ensures var b := Ascii(s)[i];
            b == s[i] as int && b != 0 && b != DOT && b != SPACE && b != QUESTION && b != BACKSLASH
  {
    assert s[i] in s;
    LegalByte(s[i]);
  }

  /** No byte of the alias is lost in the 12-byte field, and the field converts to its FCB form. */
  lemma FieldConverts(base: string, ext: string)
    requires ValidParts(base, ext)
    ensures |Join83(base, ext)| <= 12
    ensures FcbOfField(NameField(Join83(base, ext))) == FcbName(base, ext)
  {
    hide NameField, Pad;
    var f, n := NameField(Join83(base, ext)), |base|;
    BaseOfAlias(base, ext);
    var e := ExtEndOfAlias(base, ext);
    hide BaseEnd, ExtEnd;
    assert f[..n] == Ascii(base);
    if ext != [] {
      assert f[n + 1..e] == Ascii(ext);
    } else {
      assert Ascii(ext) == [];
    }
  }

  lemma BaseOfAlias(base: string, ext: string)
    requires ValidParts(base, ext)
    ensures var f := NameField(Join83(base, ext)); f[..|base|] == Ascii(base) && BaseEnd(f, 0) == |base|
  {
    var f, n := NameField(Join83(base, ext)), |base|;
    forall i | 0 <= i < n
      ensures f[i] == Ascii(base)[i] && f[i] != 0 && f[i] != DOT
    {
      LegalBytes(base, i);
    }
    var e := ExtEndOfAlias(base, ext);
    assert f[n] == 0 || f[n] == DOT;
  }

  lemma ExtEndOfAlias(base: string, ext: string) returns (e: nat)
    requires ValidParts(base, ext)
    ensures var f := NameField(Join83(base, ext));
            && (ext == [] ==> (|base| < 12 && f[|base|] == 0))
            && (ext != [] ==>
                  && f[|base|] == DOT && e == ExtEnd(f, |base| + 1) == |base| + 1 + |ext|
                  && forall i :: 0 <= i < |ext| ==> f[|base| + 1 + i] == Ascii(ext)[i])
  {
    var f, n := NameField(Join83(base, ext)), |base|;
    e := n + 1 + |ext|;
    if ext != [] {
      forall i | 0 <= i < |ext|
        ensures f[n + 1 + i] == Ascii(ext)[i] && f[n + 1 + i] != 0
      {
        LegalBytes(ext, i);
        assert Join83(base, ext)[n + 1 + i] == ext[i];
      }
      forall k | n + 1 <= k < e
        ensures f[k] != 0
      {
        LegalBytes(ext, k - n - 1);
        assert Join83(base, ext)[k] == ext[k - n - 1];
      }
      assert e < 12 ==> f[e] == 0;
    }
  }

  lemma {:induction false} FillRun(fcb: seq<byte>, i: nat, run: seq<byte>, rest: seq<byte>)
    requires |fcb| == 11 && DOT !in run && i + |run| <= 11
    ensures Filled(fcb, i, run + rest) == Filled(fcb[..i] + run + fcb[i + |run|..], i + |run|, rest)
    decreases |run|
  {
    if run == [] {
      assert run + rest == rest;
      assert fcb[..i] + run + fcb[i..] == fcb;
    } else {
      var b, tail := run[0], run[1..];
      assert b in run && (run + rest)[1..] == tail + rest;
      var fcb' := fcb[i := b];
      FillRun(fcb', i + 1, tail, rest);
      assert fcb'[..i + 1] + tail + fcb'[i + 1 + |tail|..] == fcb[..i] + run + fcb[i + |run|..];
    }
  }

  lemma {:induction false} FillPast(fcb: seq<byte>, run: seq<byte>)
    requires |fcb| == 11 && DOT !in run
    ensures Filled(fcb, 11, run) == fcb
    decreases |run|
  {
    if run != [] {
      assert run[0] in run;
      FillPast(fcb, run[1..]);
    }
  }

  /** The extension: its first three bytes. */
  lemma FillExtension(fcb: seq<byte>, i: nat, ext: seq<byte>)
    requires |fcb| == 11 && DOT !in ext
    ensures Filled(fcb, i, [DOT] + ext)
            == if |ext| <= 3 then fcb[..8] + ext + fcb[8 + |ext|..] else fcb[..8] + ext[..3]
  {
    hide Filled;
    FillAtDot(fcb, i, ext);
    if |ext| <= 3 {
      assert ext + [] == ext;
      FillRun(fcb, 8, ext, []);
      FillNothing(fcb[..8] + ext + fcb[8 + |ext|..], 8 + |ext|);
    } else {
      assert ext == ext[..3] + ext[3..];
      FillRun(fcb, 8, ext[..3], ext[3..]);
      FillPast(fcb[..8] + ext[..3] + fcb[11..], ext[3..]);
    }
  }

  lemma FillAtDot(fcb: seq<byte>, i: nat, ext: seq<byte>)
    requires |fcb| == 11
    ensures Filled(fcb, i, [DOT] + ext) == Filled(fcb, 8, ext)
  {
    assert ([DOT] + ext)[1..] == ext;
  }

  /**
   * A name or pattern behind the last backslash: up to eight bytes before the dot and the first three behind it,
   * each field filled up with spaces.
   */
  lemma PatternNormalises(prefix: seq<byte>, base: seq<byte>, ext: seq<byte>)
    requires |base| <= 8 && DOT !in base && DOT !in ext && BACKSLASH !in base && BACKSLASH !in ext
    ensures Normalised(prefix + [BACKSLASH] + (base + [DOT] + ext)) == Pad(base, 8, SPACE) + Pad(ext, 3, SPACE)
    ensures Normalised(prefix + [BACKSLASH] + base) == Pad(base, 8, SPACE) + Pad([], 3, SPACE)
  {
    hide Filled, LastComponent;
    var blank := Pad([], 11, SPACE);
    var withBase := blank[..0] + base + blank[|base|..];
    LastComponentOf(prefix, base + [DOT] + ext);
    LastComponentOf(prefix, base);
    assert base + [DOT] + ext == base + ([DOT] + ext) && base + [] == base;
    FillRun(blank, 0, base, [DOT] + ext);
    FillRun(blank, 0, base, []);
    FillExtension(withBase, |base|, ext);
    FillNothing(withBase, |base|);
    assert withBase == Pad(base, 8, SPACE) + Pad([], 3, SPACE);
    if |ext| <= 3 {
      assert withBase[..8] + ext + withBase[8 + |ext|..] == Pad(base, 8, SPACE) + Pad(ext, 3, SPACE);
    } else {
      assert withBase[..8] + ext[..3] == Pad(base, 8, SPACE) + Pad(ext, 3, SPACE);
    }
  }

  lemma FillNothing(fcb: seq<byte>, i: nat)
    requires |fcb| == 11
    ensures Filled(fcb, i, []) == fcb
  {
  }

  lemma {:induction false} LastComponentOf(prefix: seq<byte>, name: seq<byte>)
    requires BACKSLASH !in name
    ensures LastComponent(prefix + [BACKSLASH] + name) == name
    decreases |name|
  {
    var path := prefix + [BACKSLASH] + name;
    if name != [] {
      var n := |name| - 1;
      assert path[..|path| - 1] == prefix + [BACKSLASH] + name[..n];
      assert path[|path| - 1] == name[n] && name[n] in name;
      LastComponentOf(prefix, name[..n]);
    }
  }

  /**
   * The entry the server sends for an alias and the path the user types with that alias reach the
   * same 11 bytes, by two independent loops.
   */
  lemma ConversionsAgree(alias: string, prefix: seq<byte>)
    requires ValidAlias(alias)
    ensures Normalised(prefix + [BACKSLASH] + Ascii(alias)) == FcbOfField(NameField(alias))
  {
    hide Normalised, FcbOfField, NameField, Pad, Ascii, AllLegal;
    var base, ext :| ValidParts(base, ext) && alias == Join83(base, ext);
    FieldConverts(base, ext);
    LegalText(base);
    LegalText(ext);
    PatternNormalises(prefix, Ascii(base), Ascii(ext));
    AsciiOfJoin(base, ext);
  }

  lemma AsciiOfJoin(base: string, ext: string)
    ensures Ascii([]) == [] && (ext != [] ==> Ascii(Join83(base, ext)) == Ascii(base) + [DOT] + Ascii(ext))
  {
  }

  lemma LegalText(s: string)
    requires AllLegal(s)
    ensures DOT !in Ascii(s) && BACKSLASH !in Ascii(s)
  {
    forall i | 0 <= i < |s|
      ensures Ascii(s)[i] != DOT && Ascii(s)[i] != BACKSLASH
    {
      LegalBytes(s, i);
    }
  }

  // ----- Template matching -----

  /** '?' in the template stands for any byte. */
  ghost predicate Matches(tmpl: seq<byte>, name11: seq<byte>)
    requires |tmpl| == |name11| == 11
  {
    forall i :: 0 <= i < 11 ==> tmpl[i] == QUESTION || tmpl[i] == name11[i]
  }

  method FcbMatch(tmpl: seq<byte>, name11: array<byte>) returns (r: bool)
    requires |tmpl| == name11.Length == 11
    ensures r == Matches(tmpl, name11[..])
  {
    var i := 0;
    while i < 11
      invariant 0 <= i <= 11
      invariant forall k :: 0 <= k < i ==> tmpl[k] == QUESTION || tmpl[k] == name11[..][k]
    {
      if tmpl[i] != QUESTION && tmpl[i] != name11[i] {
        assert name11[..][i] == name11[i];
        return false;
      }
      i := i + 1;
    }
    return true;
  }

  lemma PadInjective(a: string, b: string, n: nat)
    requires AllLegal(a) && AllLegal(b) && |a| <= n && |b| <= n
    requires Pad(Ascii(a), n, SPACE) == Pad(Ascii(b), n, SPACE)
    ensures a == b
  {
    var p := Pad(Ascii(a), n, SPACE);
    forall i | 0 <= i < |a|
      ensures p[i] == a[i] as int && p[i] != SPACE
    {
      LegalBytes(a, i);
    }
    forall i | 0 <= i < |b|
      ensures p[i] == b[i] as int && p[i] != SPACE
    {
      LegalBytes(b, i);
    }
    if |a| < n { assert p[|a|] == SPACE; }
    if |b| < n { assert p[|b|] == SPACE; }
    assert |a| == |b|;
    forall i | 0 <= i < |a|
      ensures a[i] == b[i]
    {
      assert p[i] == a[i] as int == b[i] as int;
    }
  }

  /** Byte by byte: a question mark in the template takes any byte, anything else only itself. */
  lemma TemplateChooses(tmpl: seq<byte>, name11: seq<byte>, i: nat, b: byte)
    requires |tmpl| == |name11| == 11 && i < 11
    ensures Matches(tmpl, tmpl)
    ensures Matches(tmpl, name11) ==> (Matches(tmpl, name11[i := b]) <==> tmpl[i] == 0x3F || tmpl[i] == b)
  {
    var changed := name11[i := b];
    if Matches(tmpl, name11) && (tmpl[i] == 0x3F || tmpl[i] == b) {
      forall k | 0 <= k < 11
        ensures tmpl[k] == QUESTION || tmpl[k] == changed[k]
      {
      }
    }
    assert changed[i] == b;
  }

  /** An alias taken as the template matches the directory entry of that alias and of no other. */
  lemma ExactTemplateMatchesOneAlias(a: string, b: string)
    requires ValidAlias(a) && ValidAlias(b)
    ensures Matches(FcbOfField(NameField(a)), FcbOfField(NameField(b))) <==> a == b
  {
    var base, ext :| ValidParts(base, ext) && a == Join83(base, ext);
    var base', ext' :| ValidParts(base', ext') && b == Join83(base', ext');
    FieldConverts(base, ext);
    FieldConverts(base', ext');
    var s, t := FcbName(base, ext), FcbName(base', ext');
    forall i | 0 <= i < 11
      ensures s[i] != QUESTION
    {
      if i < |base| {
        LegalBytes(base, i);
      } else if 8 <= i < 8 + |ext| {
        LegalBytes(ext, i - 8);
      }
    }
    if Matches(s, t) {
      assert s == t;
      assert s[..8] == t[..8] && s[8..] == t[8..];
      PadInjective(base, base', 8);
      PadInjective(ext, ext', 3);
    }
  }
}
