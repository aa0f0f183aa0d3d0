/** The last check of path resolution: the canonical path must be at or below the root, symbolic links or not. */
module Jail {
  import opened Options
  import opened NameMaps
  import opened NameMapRuns
  import opened Os
  import opened PathJail

  /** What a component of an absolute path can be. */
  predicate IsEntry(n: string) { n != [] && '/' !in n }

  predicate IsAbsolute(p: Path) { forall n :: n in p ==> IsEntry(n) }

  function Slashed(p: Path): string {
    if p == [] then "" else "/" + p[0] + Slashed(p[1..])
  }

  /** str() of an absolute path. */
  function Text(p: Path): string {
    if p == [] then "/" else Slashed(p)
  }

  /** The check compares texts. */
  predicate Inside(root: Path, canonical: Path) {
    canonical == root || Text(root) + "/" <= Text(canonical)
  }

  /** Two names, each followed by a slash or nothing, start alike only if they are the same. */
  lemma NamesEndAtSlashes(a: string, b: string, x: string, y: string)
    requires '/' !in a && '/' !in b
    requires x != [] && x[0] == '/' && (y == [] || y[0] == '/')
    ensures a + x <= b + y <==> a == b && x <= y
  {
    if |a| < |b| {
      assert (a + x)[|a|] == '/' && (b + y)[|a|] == b[|a|] && b[|a|] in b;
    } else if |a| > |b| {
      assert (a + x)[|b|] == a[|b|] && a[|b|] in a;
      assert |b + y| > |b| ==> (b + y)[|b|] == '/';
    } else {
      PrefixParts(a, b, x, y);
    }
  }

  lemma PrefixParts(a: string, b: string, x: string, y: string)
    requires |a| == |b|
    ensures a + x <= b + y <==> a == b && x <= y
  {
    if a + x <= b + y {
      assert (b + y)[..|a|] == b && (a + x)[..|a|] == a;
      assert (a + x)[|a|..] == x && (b + y)[..|a + x|][|a|..] == y[..|x|];
    }
  }

  lemma {:induction false} SlashedPrefix(a: Path, b: Path)
    requires IsAbsolute(a) && IsAbsolute(b)
    ensures Slashed(a) + "/" <= Slashed(b) <==> a <= b && a != b
    decreases |a|
  {
    if a == [] {
      assert Slashed(a) + "/" == "/";
    } else if b != [] {
      var x, y := Slashed(a[1..]) + "/", Slashed(b[1..]);
      assert IsEntry(a[0]) && IsEntry(b[0]) by { assert a[0] in a && b[0] in b; }
      TailIsAbsolute(a);
      TailIsAbsolute(b);
      SlashedPrefix(a[1..], b[1..]);
      HeadAndTail(a, b);
      hide Slashed, IsAbsolute;
      SlashedStep(a);
      SlashedStep(b);
      NamesEndAtSlashes(a[0], b[0], x, y);
      PrefixParts("/", "/", a[0] + x, b[0] + y);
    }
  }

  lemma SlashedStep(p: Path)
    requires p != []
    ensures Slashed(p) == "/" + (p[0] + Slashed(p[1..]))
    ensures Slashed(p) + "/" == "/" + (p[0] + (Slashed(p[1..]) + "/"))
    ensures Slashed(p[1..]) == [] || Slashed(p[1..])[0] == '/'
  {
  }

  lemma TailIsAbsolute(p: Path)
    requires IsAbsolute(p) && p != []
    ensures IsAbsolute(p[1..])
  {
    forall n | n in p[1..] ensures IsEntry(n) { assert n in p; }
  }

  lemma HeadAndTail(a: Path, b: Path)
    requires a != [] && b != []
    ensures a <= b && a != b <==> a[0] == b[0] && a[1..] <= b[1..] && a[1..] != b[1..]
  {
    assert a == [a[0]] + a[1..] && b == [b[0]] + b[1..];
    if a[0] == b[0] && a[1..] <= b[1..] { assert b[..|a|] == [b[0]] + b[1..][..|a| - 1]; }
    if a <= b { assert b[1..][..|a| - 1] == b[..|a|][1..]; }
  }

  /**
   * Comparing texts is comparing components, so a root never admits a sibling that only starts with its name. The
   * exception is the root directory of the host: with "/" served, nothing below it passes.
   */
  lemma InsideVerdict(root: Path, canonical: Path)
    requires IsAbsolute(root) && IsAbsolute(canonical)
    ensures Inside(root, canonical) <==> canonical == root || (root != [] && root <= canonical)
  {
    if root == [] {
      if canonical != [] {
        assert canonical[0] in canonical;
        assert Text(root) + "/" == "//" && Text(canonical)[1] == canonical[0][0];
        assert canonical[0][0] in canonical[0];
      }
    } else {
      SlashedPrefix(root, canonical);
      if canonical == [] {
        assert Text(canonical) == "/" && |Slashed(root)| >= 1;
      }
    }
  }

  /** What realpath makes of an absolute path; None stands for OSError. */
  type Realpath = Path -> Option<Path>

  /** The whole of resolve: the walk below the root, realpath, and the check. */
  function ResolveReal(t: Tree, names: NameData, root: Path, canon: Realpath, dosPath: string): Option<Path> {
    var current := Resolve(t, names, dosPath);
    if current.None? || canon(root + current.value).None? then None
    else
      var canonical := canon(root + current.value).value;
      if Inside(root, canonical) then Some(canonical) else None
  }

  /** Whatever the symbolic links do, what is accepted is at or below the root. */
  lemma NothingOutsideTheRoot(t: Tree, names: NameData, root: Path, canon: Realpath, dosPath: string)
    requires IsAbsolute(root) && forall p :: canon(p).Some? ==> IsAbsolute(canon(p).value)
    ensures var r := ResolveReal(t, names, root, canon, dosPath); r.Some? ==> root <= r.value
    ensures var current := Resolve(t, names, dosPath);
            root != [] ==>
              (ResolveReal(t, names, root, canon, dosPath).Some?
               <==> current.Some? && canon(root + current.value).Some? && root <= canon(root + current.value).value)
  {
    hide Resolve, Inside;
    var current := Resolve(t, names, dosPath);
    if current.Some? && canon(root + current.value).Some? {
      InsideVerdict(root, canon(root + current.value).value);
    }
  }

  /**
   * Without symbolic links the check changes nothing below any root but "/"; a daemon that serves "/" reaches its
   * root directory and nothing else.
   */
  lemma WithoutLinks(t: Tree, names: NameData, root: Path, dosPath: string)
    requires WellFormed(names) && GoodTree(t) && IsAbsolute(root)
    ensures var r, current := ResolveReal(t, names, root, p => Some(p), dosPath), Resolve(t, names, dosPath);
            if current.None? then r == None
            else r == if root != [] || current.value == [] then Some(root + current.value) else None
  {
    hide WellFormed, GoodTree, Resolve, Inside, SimpleName;
    var current := Resolve(t, names, dosPath);
    if current.Some? {
      ResolvedPathsStayBelowRoot(t, names, dosPath);
      forall n | n in root + current.value
        ensures IsEntry(n)
      {
        if n in current.value { SimpleIsEntry(n); }
      }
      InsideVerdict(root, root + current.value);
    }
  }

  lemma SimpleIsEntry(n: string)
    requires SimpleName(n)
    ensures IsEntry(n)
  {
  }
}
