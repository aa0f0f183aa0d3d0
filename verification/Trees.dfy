/** Changes to the tree: adding, removing and moving entries, and that the tree stays a tree. */
module Trees {
  import opened NameMaps
  import opened Os

  function Listing(t: Tree, dir: Path): seq<string>
    requires IsDir(t, dir)
  {
    t[dir].listing
  }

  // ----- Adding a file or an empty directory -----

  predicate IsLeaf(node: Node) { node.Dir? ==> node.listing == [] }

  function Grown(t: Tree, p: Path, node: Node): Tree
    requires p != [] && IsDir(t, Parent(p))
  {
    t[Parent(p) := t[Parent(p)].(listing := Listing(t, Parent(p)) + [Last(p)])][p := node]
  }

  lemma GrownListing(t: Tree, p: Path, node: Node, q: Path)
    requires p != [] && p !in t && IsDir(t, Parent(p)) && IsLeaf(node)
    ensures var t' := Grown(t, p, node);
            && (IsDir(t', q) <==> IsDir(t, q) || (q == p && node.Dir?))
            && (IsDir(t, q) ==>
                  t'[q].listing == if q == Parent(p) then t[q].listing + [Last(p)] else t[q].listing)
            && (q == p && node.Dir? ==> t'[q].listing == [])
  {
  }

  lemma GrownFile(t: Tree, p: Path, node: Node, q: Path)
    requires p != [] && p !in t && IsDir(t, Parent(p))
    ensures IsFile(Grown(t, p, node), q) ==> if q == p then Grown(t, p, node)[q] == node
                                             else IsFile(t, q) && Grown(t, p, node)[q] == t[q]
  {
  }

  lemma GrownUpward(t: Tree, p: Path, node: Node)
    requires Upward(t) && p != [] && p !in t && IsDir(t, Parent(p)) && IsLeaf(node)
    ensures Upward(Grown(t, p, node))
  {
    var t' := Grown(t, p, node);
    forall q | q in t' && q != []
      ensures IsDir(t', Parent(q)) && Last(q) in t'[Parent(q)].listing
    {
      GrownListing(t, p, node, Parent(q));
    }
  }

  lemma GrownDownward(t: Tree, p: Path, node: Node)
    requires Downward(t) && p != [] && p !in t && IsDir(t, Parent(p)) && SimpleName(Last(p)) && IsLeaf(node)
    ensures Downward(Grown(t, p, node))
  {
    var t' := Grown(t, p, node);
    hide Downward, SimpleName;
    assert p == Parent(p) + [Last(p)];
    if !Downward(t') {
      var q, n := NotDownward(t');
      GrownListing(t, p, node, q);
      if IsDir(t, q) && n in t[q].listing { Listed(t, q, n); }
    }
  }

  lemma NotListed(t: Tree, p: Path)
    requires Downward(t) && p != [] && p !in t && IsDir(t, Parent(p))
    ensures Last(p) !in t[Parent(p)].listing
  {
    assert p == Parent(p) + [Last(p)];
    hide SimpleName;
  }

  lemma GrownOnce(t: Tree, p: Path, node: Node)
    requires Once(t) && Downward(t) && p != [] && p !in t && IsDir(t, Parent(p)) && IsLeaf(node)
    ensures Once(Grown(t, p, node))
  {
    hide Downward;
    NotListed(t, p);
    var t' := Grown(t, p, node);
    forall q | IsDir(t', q)
      ensures Distinct(t'[q].listing)
    {
      GrownListing(t, p, node, q);
      hide Grown;
    }
  }

  lemma GrownIsGood(t: Tree, p: Path, node: Node)
    requires GoodTree(t) && p != [] && p !in t && IsDir(t, Parent(p)) && SimpleName(Last(p)) && IsLeaf(node)
    ensures GoodTree(Grown(t, p, node))
  {
    hide Upward, Downward, Once, SimpleName;
    GrownListing(t, p, node, []);
    GrownUpward(t, p, node);
    GrownDownward(t, p, node);
    GrownOnce(t, p, node);
  }

  // ----- Removing a file or an empty directory -----

  /** The listing without n. */
  function Unlisted(listing: seq<string>, n: string): (r: seq<string>)
    ensures forall x :: x in r <==> x in listing && x != n
  {
    if listing == [] then []
    else
      var last := listing[|listing| - 1];
      Unlisted(listing[..|listing| - 1], n) + (if last == n then [] else [last])
  }

  function Pruned(t: Tree, p: Path): Tree
    requires p != [] && IsDir(t, Parent(p))
  {
    t[Parent(p) := t[Parent(p)].(listing := Unlisted(Listing(t, Parent(p)), Last(p)))] - {p}
  }

  lemma PrunedListing(t: Tree, p: Path, q: Path)
    requires p != [] && p in t && IsDir(t, Parent(p)) && IsLeaf(t[p])
    ensures var t' := Pruned(t, p);
            && (IsDir(t', q) <==> IsDir(t, q) && q != p)
            && (IsDir(t', q) ==>
                  t'[q].listing == if q == Parent(p) then Unlisted(t[q].listing, Last(p)) else t[q].listing)
  {
    assert Parent(p) != p;
    hide Unlisted;
  }

  lemma PathParts(p: Path, q: Path)
    requires p != [] && q != [] && Parent(p) == Parent(q) && Last(p) == Last(q)
    ensures p == q
  {
    assert p == Parent(p) + [Last(p)] && q == Parent(q) + [Last(q)];
  }

  lemma ChildParts(p: Path, q: Path, n: string)
    requires p != [] && p == q + [n]
    ensures q == Parent(p) && n == Last(p)
  {
  }

  lemma PrunedUpward(t: Tree, p: Path)
    requires Upward(t) && p != [] && p in t && IsLeaf(t[p])
    ensures Upward(Pruned(t, p))
  {
    var t' := Pruned(t, p);
    forall q | q in t' && q != []
      ensures IsDir(t', Parent(q)) && Last(q) in t'[Parent(q)].listing
    {
      assert q in t && q != p;
      assert IsDir(t, Parent(q)) && Last(q) in t[Parent(q)].listing;
      hide Upward, Pruned, Unlisted;
      PrunedListing(t, p, Parent(q));
      if Parent(q) == Parent(p) && Last(q) == Last(p) { PathParts(p, q); }
    }
  }

  lemma PrunedDownward(t: Tree, p: Path)
    requires Downward(t) && p != [] && p in t && IsDir(t, Parent(p)) && IsLeaf(t[p])
    ensures Downward(Pruned(t, p))
  {
    var t' := Pruned(t, p);
    forall q, n | IsDir(t', q) && n in t'[q].listing
      ensures q + [n] in t' && SimpleName(n)
    {
      hide Unlisted, SimpleName;
      PrunedListing(t, p, q);
      assert q + [n] in t && SimpleName(n);
      hide Downward;
      if q + [n] == p { ChildParts(p, q, n); }
    }
  }

  lemma {:induction false} UnlistedDistinct(l: seq<string>, n: string)
    requires Distinct(l)
    ensures Distinct(Unlisted(l, n))
  {
    if l != [] {
      var init, last := l[..|l| - 1], l[|l| - 1];
      UnlistedDistinct(init, n);
      assert last !in init;
    }
  }

  lemma PrunedOnce(t: Tree, p: Path)
    requires Once(t) && p != [] && p in t && IsDir(t, Parent(p)) && IsLeaf(t[p])
    ensures Once(Pruned(t, p))
  {
    var t' := Pruned(t, p);
    forall q | IsDir(t', q)
      ensures Distinct(t'[q].listing)
    {
      hide Pruned, Distinct;
      PrunedListing(t, p, q);
      UnlistedDistinct(t[q].listing, Last(p));
    }
  }

  lemma PrunedIsGood(t: Tree, p: Path)
    requires GoodTree(t) && p != [] && p in t && IsLeaf(t[p])
    ensures GoodTree(Pruned(t, p))
  {
    assert IsDir(t, Parent(p));
    hide Downward, Upward, Once;
    PrunedListing(t, p, []);
    PrunedUpward(t, p);
    PrunedDownward(t, p);
    PrunedOnce(t, p);
  }

  // ----- Moving an entry with everything below it -----

  /** An entry may not move onto anything, nor below itself. */
  predicate CanMove(t: Tree, source: Path, target: Path) {
    && source != [] && target != [] && source in t && target !in t
    && IsDir(t, Parent(source)) && IsDir(t, Parent(target)) && !(source <= target)
  }

  /** Where a path below target comes from. */
  function Origin(source: Path, target: Path, p: Path): Path
    requires target <= p
  {
    source + p[|target|..]
  }

  predicate Arrives(t: Tree, source: Path, target: Path, p: Path) {
    target <= p && Origin(source, target, p) in t
  }

  /** The listing of a directory that stays where it is. */
  function Relisted(t: Tree, source: Path, target: Path, d: Path): seq<string>
    requires source != [] && target != [] && IsDir(t, d)
  {
    var l := if d == Parent(source) then Unlisted(Listing(t, d), Last(source)) else Listing(t, d);
    if d == Parent(target) then l + [Last(target)] else l
  }

  function Stayed(t: Tree, source: Path, target: Path, p: Path): Node
    requires source != [] && target != [] && p in t
  {
    if t[p].Dir? then t[p].(listing := Relisted(t, source, target, p)) else t[p]
  }

  function Transplanted(t: Tree, source: Path, target: Path): Tree
    requires CanMove(t, source, target)
  {
    var arrived := set p | p in t && source <= p :: target + p[|source|..];
    (map p | p in t && !(source <= p) :: Stayed(t, source, target, p))
    + (map p | p in arrived && Arrives(t, source, target, p) :: t[Origin(source, target, p)])
  }

  lemma {:induction false} PrefixExists(t: Tree, p: Path, n: nat)
    requires Upward(t) && p in t && n <= |p|
    ensures p[..n] in t
    decreases |p|
  {
    if n < |p| {
      assert Parent(p)[..n] == p[..n];
      PrefixExists(t, Parent(p), n);
    } else {
      assert p[..n] == p;
    }
  }

  /** What is at p after the move: what has arrived there, or what has stayed. */
  lemma MovedAt(t: Tree, source: Path, target: Path, p: Path)
    requires Upward(t) && CanMove(t, source, target)
    ensures var t' := Transplanted(t, source, target);
            && (target <= p ==>
                  && (p in t' <==> Origin(source, target, p) in t)
                  && (p in t' ==> t'[p] == t[Origin(source, target, p)]))
            && (!(target <= p) ==>
                  && (p in t' <==> p in t && !(source <= p))
                  && (p in t' ==> t'[p] == Stayed(t, source, target, p)))
  {
    hide Stayed, Upward;
    var t' := Transplanted(t, source, target);
    if target <= p {
      if p in t {
        PrefixExists(t, p, |target|);
      }
      var from := Origin(source, target, p);
      if from in t {
        assert target + from[|source|..] == p;
      }
    }
  }

  lemma ParentIsBelow(a: Path, q: Path)
    requires q != []
    ensures a <= Parent(q) ==> a <= q
    ensures a <= q && a != q ==> a <= Parent(q)
  {
  }

  lemma OriginOfParent(source: Path, target: Path, q: Path)
    requires target <= q && q != target
    ensures target <= Parent(q) && Origin(source, target, q) != []
    ensures Origin(source, target, Parent(q)) == Parent(Origin(source, target, q))
    ensures Last(Origin(source, target, q)) == Last(q)
  {
  }

  lemma ArrivedUp(t: Tree, source: Path, target: Path, q: Path)
    requires Upward(t) && CanMove(t, source, target) && target <= q && q in Transplanted(t, source, target)
    ensures var t' := Transplanted(t, source, target); IsDir(t', Parent(q)) && Last(q) in t'[Parent(q)].listing
  {
    MovedAt(t, source, target, q);
    MovedAt(t, source, target, Parent(q));
    if q == target {
      ParentIsBelow(source, target);
    } else {
      OriginOfParent(source, target, q);
      var from := Origin(source, target, q);
      assert IsDir(t, Parent(from)) && Last(from) in t[Parent(from)].listing;
    }
    hide Upward, Transplanted, Origin, Unlisted;
  }

  lemma StayedUp(t: Tree, source: Path, target: Path, q: Path)
    requires Upward(t) && CanMove(t, source, target)
    requires !(target <= q) && q != [] && q in Transplanted(t, source, target)
    ensures var t' := Transplanted(t, source, target); IsDir(t', Parent(q)) && Last(q) in t'[Parent(q)].listing
  {
    MovedAt(t, source, target, q);
    MovedAt(t, source, target, Parent(q));
    assert IsDir(t, Parent(q)) && Last(q) in t[Parent(q)].listing;
    hide Upward, Transplanted, Origin, Unlisted;
    ParentIsBelow(source, q);
    ParentIsBelow(target, q);
    if Parent(q) == Parent(source) && Last(q) == Last(source) { PathParts(source, q); }
  }

  lemma Listed(t: Tree, q: Path, n: string)
    requires Downward(t) && IsDir(t, q) && n in t[q].listing
    ensures q + [n] in t && SimpleName(n)
  {
  }

  lemma ArrivedDown(t: Tree, source: Path, target: Path, q: Path, n: string)
    requires Upward(t) && Downward(t) && CanMove(t, source, target) && target <= q
    requires IsDir(Transplanted(t, source, target), q) && n in Transplanted(t, source, target)[q].listing
    ensures q + [n] in Transplanted(t, source, target) && SimpleName(n)
  {
    hide Upward, Downward, Transplanted, SimpleName;
    MovedAt(t, source, target, q);
    MovedAt(t, source, target, q + [n]);
    Listed(t, Origin(source, target, q), n);
    assert Origin(source, target, q + [n]) == Origin(source, target, q) + [n];
  }

  lemma StayedDown(t: Tree, source: Path, target: Path, q: Path, n: string)
    requires Upward(t) && Downward(t) && CanMove(t, source, target) && !(target <= q) && SimpleName(Last(target))
    requires IsDir(Transplanted(t, source, target), q) && n in Transplanted(t, source, target)[q].listing
    ensures q + [n] in Transplanted(t, source, target) && SimpleName(n)
  {
    hide Upward, Downward, Transplanted, SimpleName, Unlisted;
    var child := q + [n];
    MovedAt(t, source, target, q);
    MovedAt(t, source, target, child);
    assert Parent(child) == q && Last(child) == n;
    ParentIsBelow(source, child);
    ParentIsBelow(target, child);
    if n in t[q].listing && !(q == Parent(source) && n == Last(source)) {
      Listed(t, q, n);
    } else {
      PathParts(target, child);
      assert Origin(source, target, target) == source;
    }
  }

  lemma MovedUpward(t: Tree, source: Path, target: Path)
    requires Upward(t) && CanMove(t, source, target)
    ensures Upward(Transplanted(t, source, target))
  {
    var t' := Transplanted(t, source, target);
    hide Transplanted;
    forall q | q in t' && q != []
      ensures IsDir(t', Parent(q)) && Last(q) in t'[Parent(q)].listing
    {
      hide *;
      if target <= q { ArrivedUp(t, source, target, q); } else { StayedUp(t, source, target, q); }
    }
  }

  /** A listed entry that does not exist, or whose name is no name. */
  lemma NotDownward(t: Tree) returns (q: Path, n: string)
    requires !Downward(t)
    ensures IsDir(t, q) && n in t[q].listing && !(q + [n] in t && SimpleName(n))
  {
    q, n :| IsDir(t, q) && n in t[q].listing && !(q + [n] in t && SimpleName(n));
  }

  lemma MovedDownward(t: Tree, source: Path, target: Path)
    requires Upward(t) && Downward(t) && CanMove(t, source, target) && SimpleName(Last(target))
    ensures Downward(Transplanted(t, source, target))
  {
    var t' := Transplanted(t, source, target);
    hide Transplanted, Upward, Downward, SimpleName;
    if !Downward(t') {
      var q, n := NotDownward(t');
      if target <= q { ArrivedDown(t, source, target, q, n); } else { StayedDown(t, source, target, q, n); }
    }
  }

  lemma RelistedDistinct(t: Tree, source: Path, target: Path, d: Path)
    requires Downward(t) && CanMove(t, source, target) && IsDir(t, d) && Distinct(t[d].listing)
    ensures Distinct(Relisted(t, source, target, d))
  {
    hide Downward, Unlisted;
    UnlistedDistinct(t[d].listing, Last(source));
    NotListed(t, target);
  }

  lemma MovedOnce(t: Tree, source: Path, target: Path)
    requires Once(t) && Upward(t) && Downward(t) && CanMove(t, source, target)
    ensures Once(Transplanted(t, source, target))
  {
    var t' := Transplanted(t, source, target);
    hide Transplanted, Upward, Downward;
    forall q | IsDir(t', q)
      ensures Distinct(t'[q].listing)
    {
      MovedAt(t, source, target, q);
      hide Distinct, Relisted;
      if !(target <= q) { RelistedDistinct(t, source, target, q); }
    }
  }

  lemma MovedIsGood(t: Tree, source: Path, target: Path)
    requires GoodTree(t) && CanMove(t, source, target) && SimpleName(Last(target))
    ensures GoodTree(Transplanted(t, source, target))
  {
    hide Upward, Downward, Once, Transplanted;
    MovedAt(t, source, target, []);
    MovedUpward(t, source, target);
    MovedDownward(t, source, target);
    MovedOnce(t, source, target);
  }
}
