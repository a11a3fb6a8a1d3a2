/** A file system as a map from paths to entries, in which every operation may
    fail, and fail halfway. The recursive copy of a skill directory
    (crates/bitrouter-skills/src/install.rs, `copy_dir`) is proved here. */
module FileTree {
  import opened Wrappers
  import opened Strings

  type Path = seq<string>

  /** Where a symbolic link points: from the root, or from so many directories up. */
  datatype Link = Link(absolute: bool, ups: nat, names: Path)

  datatype Entry = File(content: string) | Dir | Symlink(target: Link) | Special

  type Files = map<Path, Entry>

  /** Every entry but the root sits in a directory. */
  ghost predicate Closed(m: Files) {
    forall p {:trigger IsDir(m, p[..|p| - 1])} :: p in m && p != [] ==> IsDir(m, p[..|p| - 1])
  }

  predicate IsDir(m: Files, p: Path) {
    p in m && m[p].Dir?
  }

  /** What is found at `r` below `root`. */
  function At(m: Files, root: Path, r: Path): Option<Entry> {
    if root + r in m then Some(m[root + r]) else None
  }

  ghost predicate Absent(m: Files, root: Path) {
    forall p :: p in m ==> !(root <= p)
  }

  predicate Apart(a: Path, b: Path) {
    !(a <= b) && !(b <= a)
  }

  // -------------------------------------------------------------- operations

  /** How one operation goes: through, not at all, or partly: creating only the
      shallower directories, sparing some of what it was to remove, or writing
      some other text. */
  datatype Fault = Fine | Fail | Halfway(depth: nat, spared: Path -> bool, written: string)

  /** No non-directory stands in the way of creating `p`. */
  predicate Unblocked(m: Files, p: Path) {
    forall k :: 0 <= k <= |p| && p[..k] in m ==> m[p[..k]].Dir?
  }

  /** `m` with `p[..n]` and everything above it turned into directories. */
  function WithDirs(m: Files, p: Path, n: nat): Files
    requires n <= |p|
  {
    map q | q in m.Keys + (set k | 0 <= k <= n :: p[..k]) :: if q in m then m[q] else Dir
  }

  /** Paths of more than `limit` components are refused. */
  function MakeDirs(f: Fault, limit: nat, m: Files, p: Path): (bool, Files) {
    if |p| > limit || !Unblocked(m, p) || f.Fail? then (false, m)
    else if f.Halfway? && p != [] then (false, WithDirs(m, p, if f.depth < |p| then f.depth else |p| - 1))
    else (true, WithDirs(m, p, |p|))
  }

  function Without(m: Files, root: Path): Files {
    map q | q in m && !(root <= q) :: m[q]
  }

  /** Removal deletes children before their parents, so what is spared keeps its parents. */
  predicate Spared(spared: Path -> bool, root: Path, q: Path) {
    forall k :: |root| <= k <= |q| ==> spared(q[..k])
  }

  /** What removing a directory tree accepts: a directory, or a link, which is only unlinked. */
  predicate Removable(m: Files, root: Path) {
    root in m && (m[root].Dir? || m[root].Symlink?)
  }

  function RemoveAll(f: Fault, m: Files, root: Path): (bool, Files) {
    if !Removable(m, root) || f.Fail? then (false, m)
    else if f.Halfway? then (false, map q | q in m && (!(root <= q) || Spared(f.spared, root, q)) :: m[q])
    else (true, Without(m, root))
  }

  /** Moves a whole tree at once, or not at all. */
  function Rename(f: Fault, m: Files, a: Path, b: Path): (bool, Files) {
    if !f.Fine? || a !in m || b in m || a <= b || b == [] || !IsDir(m, b[..|b| - 1]) then (false, m)
    else
      (true, map q | q in (set p | p in m && !(a <= p)) + (set p | p in m && a <= p :: b + p[|a|..])
                   && (b <= q || q in m) && (b <= q ==> a + q[|b|..] in m)
             :: if b <= q then m[a + q[|b|..]] else m[q])
  }

  function CopyFile(f: Fault, m: Files, a: Path, b: Path): (bool, Files) {
    if a !in m || !m[a].File? || b == [] || !IsDir(m, b[..|b| - 1]) || (b in m && !m[b].File?) then (false, m)
    else if f.Fail? then (false, m)
    else if f.Halfway? then (false, m[b := File(f.written)])
    else (true, m[b := m[a]])
  }

  /** Writes the tree fetched from elsewhere at `dst`, whole or in part. */
  function Clone(f: Fault, m: Files, dst: Path, tree: Files): (bool, Files) {
    if f.Fail? || dst == [] || !IsDir(m, dst[..|dst| - 1]) then (false, m)
    else
      var keys := m.Keys + set r | r in tree && (f.Halfway? ==> Spared(f.spared, dst, dst + r)) :: dst + r;
      (f.Fine?, map q | q in keys && (dst <= q ==> q[|dst|..] in tree) :: if dst <= q then tree[q[|dst|..]] else m[q])
  }

  function Children(m: Files, p: Path): set<string> {
    set q | q in m && |q| == |p| + 1 && p <= q :: q[|p|]
  }

  // ------------------------------------------------------------ following links

  /** How many links one lookup follows at most. */
  const LINK_LIMIT: nat := 40

  /** Where a link found in `dir` starts from. */
  function LinkBase(dir: Path, link: Link): Path {
    if link.absolute || link.ups > |dir| then [] else dir[..|dir| - link.ups]
  }

  /** The place reached from the directory `dir` by `names`, following every link
      on the way, the last one included. */
  function Walk(m: Files, dir: Path, names: Path, links: nat): Option<Path>
    decreases links, |names|
  {
    if names == [] then Some(dir)
    else
      var p, rest := dir + [names[0]], names[1..];
      if p !in m then None
      else
        match m[p]
        case Symlink(link) => if links == 0 then None else Walk(m, LinkBase(dir, link), link.names + rest, links - 1)
        case Dir => Walk(m, p, rest, links)
        case _ => if rest == [] then Some(p) else None
  }

  /** The real place of a path. */
  function Real(m: Files, p: Path): Option<Path> {
    Walk(m, [], p, LINK_LIMIT)
  }

  predicate IsRealDir(m: Files, p: Path) {
    Real(m, p).Some? && IsDir(m, Real(m, p).value)
  }

  /** Whether `p` leads to something. */
  predicate Exists(m: Files, p: Path) {
    Real(m, p).Some? && Real(m, p).value in m
  }

  /** Nothing is lost or changed. */
  ghost predicate Grows(m: Files, now: Files) {
    forall p :: p in m ==> p in now && now[p] == m[p]
  }

  /** New entries do not redirect a lookup that succeeded. */
  lemma {:induction false} WalkGrows(m: Files, now: Files, dir: Path, names: Path, links: nat)
    requires Grows(m, now) && Walk(m, dir, names, links).Some?
    ensures Walk(now, dir, names, links) == Walk(m, dir, names, links)
    decreases links, |names|
  {
    if names != [] {
      var p, rest := dir + [names[0]], names[1..];
      match m[p]
      case Symlink(link) => WalkGrows(m, now, LinkBase(dir, link), link.names + rest, links - 1);
      case Dir => WalkGrows(m, now, p, rest, links);
      case _ =>
    }
  }

  /** Below a real directory, names are taken as they are. */
  lemma {:induction false} WalkStraight(m: Files, dir: Path, names: Path, links: nat)
    requires Closed(m) && dir + names in m && !m[dir + names].Symlink?
    ensures Walk(m, dir, names, links) == Some(dir + names)
    decreases |names|
  {
    if names == [] {
      AppendNothing(dir);
    } else {
      var p, rest := dir + [names[0]], names[1..];
      HeadAndTail(names);
      Assoc(dir, [names[0]], rest);
      if rest == [] {
        AppendNothing(p);
      } else {
        PathIsDir(m, dir + names, |p|);
        Opening(p, rest);
        WalkStraight(m, p, rest, links);
      }
    }
  }

  /** A directory that exists is passed through as it is. */
  lemma {:induction false} WalkThrough(m: Files, dir: Path, names: Path, rest: Path, links: nat)
    requires Closed(m) && IsDir(m, dir + names)
    ensures Walk(m, dir, names + rest, links) == Walk(m, dir + names, rest, links)
    decreases |names|
  {
    if names == [] {
      AppendNothing(dir);
      EmptyFirst(rest);
    } else {
      var p, tail := dir + [names[0]], names[1..];
      HeadAndTail(names);
      Assoc(dir, [names[0]], tail);
      ConsAppend(names[0], tail, rest);
      if tail == [] {
        AppendNothing(p);
      } else {
        PathIsDir(m, dir + names, |p|);
        Opening(p, tail);
      }
      WalkThrough(m, p, tail, rest, links);
    }
  }

  lemma {:induction false} ConsAppend(n: string, tail: Path, rest: Path)
    ensures ([n] + tail) + rest == [n] + (tail + rest)
    ensures (([n] + tail) + rest)[0] == n && (([n] + tail) + rest)[1..] == tail + rest
  {
  }

  lemma {:induction false} LinkBaseIsDir(m: Files, dir: Path, link: Link)
    requires Closed(m) && IsDir(m, dir)
    ensures IsDir(m, LinkBase(dir, link))
  {
    AncestorIsDir(m, dir, 0);
    if link.ups <= |dir| {
      AncestorIsDir(m, dir, |dir| - link.ups);
    }
  }

  /** Links that lie in a directory start from a directory. */
  ghost predicate BasesAreDirs(m: Files) {
    forall dir, link :: IsDir(m, dir) ==> IsDir(m, LinkBase(dir, link))
  }

  lemma {:induction false} ClosedBases(m: Files)
    requires Closed(m)
    ensures BasesAreDirs(m)
  {
    forall dir, link | IsDir(m, dir) ensures IsDir(m, LinkBase(dir, link)) {
      LinkBaseIsDir(m, dir, link);
    }
  }

  /** A lookup goes by the lookup of what it starts with. */
  lemma {:induction false} WalkSplits(m: Files, dir: Path, names: Path, last: string, links: nat) returns (left: nat)
    requires BasesAreDirs(m) && IsDir(m, dir) && Walk(m, dir, names + [last], links).Some?
    ensures Walk(m, dir, names, links).Some? && left <= links
    ensures var place := Walk(m, dir, names, links).value;
            IsDir(m, place) && Walk(m, place, [last], left) == Walk(m, dir, names + [last], links)
    decreases links, |names|
  {
    if names == [] {
      EmptyFirst([last]);
      return links;
    }
    var p, rest := dir + [names[0]], names[1..];
    HeadAndTail(names);
    ConsAppend(names[0], rest, [last]);
    match m[p]
    case Symlink(link) =>
      Assoc(link.names, rest, [last]);
      left := WalkSplits(m, LinkBase(dir, link), link.names + rest, last, links - 1);
    case Dir =>
      left := WalkSplits(m, p, rest, last, links);
    case _ =>
  }

  lemma {:induction false} WalkOne(m: Files, dir: Path, last: string, links: nat)
    requires Walk(m, dir, [last], links).Some?
    ensures dir + [last] in m
    ensures m[dir + [last]].Symlink? || Walk(m, dir, [last], links) == Some(dir + [last])
  {
    assert [last][1..] == [];
  }

  /** A lookup that ends somewhere starts from a directory. */
  lemma {:induction false} RootIsDir(m: Files, p: Path)
    requires Closed(m) && p != [] && Real(m, p).Some?
    ensures IsDir(m, [])
  {
    var first := [] + [p[0]];
    assert first in m;
    PathIsDir(m, first, 0);
  }

  /** A lookup that ends somewhere goes through a directory that has its last name. */
  lemma {:induction false} LookupSplits(m: Files, dir: Path, last: string)
    requires Closed(m) && IsDir(m, []) && Real(m, dir + [last]).Some?
    ensures IsRealDir(m, dir)
    ensures var p := Real(m, dir).value + [last];
            p in m && (m[p].Symlink? || Real(m, dir + [last]) == Some(p))
  {
    ClosedBases(m);
    var left := WalkSplits(m, [], dir, last, LINK_LIMIT);
    WalkOne(m, Real(m, dir).value, last, left);
  }

  lemma {:induction false} Opening(a: Path, b: Path)
    ensures (a + b)[..|a|] == a
  {
  }

  /** A proper ancestor of anything is a directory. */
  lemma {:induction false} PathIsDir(m: Files, p: Path, k: nat)
    requires Closed(m) && p in m && k < |p|
    ensures IsDir(m, p[..k])
  {
    AncestorIsDir(m, p[..|p| - 1], k);
    assert p[..|p| - 1][..k] == p[..k];
  }

  lemma {:induction false} RealIsReal(m: Files, p: Path)
    requires Closed(m) && p in m && !m[p].Symlink?
    ensures Real(m, p) == Some(p)
  {
    assert [] + p == p;
    WalkStraight(m, [], p, LINK_LIMIT);
  }

  /** What is there leads to something, unless it is a link; what is not there does not. */
  lemma {:induction false} ExistsUnlessLink(m: Files, p: Path)
    requires Closed(m)
    ensures p in m && !m[p].Symlink? ==> Exists(m, p)
    ensures p != [] && p !in m && Unblocked(m, p) ==> !Exists(m, p)
  {
    if p in m && !m[p].Symlink? {
      RealIsReal(m, p);
    }
    if p != [] && p !in m && Unblocked(m, p) {
      EmptyFirst(p);
      forall k | 0 <= k <= |p| ensures [] + p[..k] == p[..k] {}
      WalkNowhere(m, [], p, LINK_LIMIT);
    }
  }

  /** Through directories only, a missing entry is not found. */
  lemma {:induction false} WalkNowhere(m: Files, dir: Path, names: Path, links: nat)
    requires names != [] && dir + names !in m
    requires forall k :: 0 <= k <= |names| && dir + names[..k] in m ==> m[dir + names[..k]].Dir?
    ensures Walk(m, dir, names, links).None?
    decreases |names|
  {
    var p, rest := dir + [names[0]], names[1..];
    HeadAndTail(names);
    Assoc(dir, [names[0]], rest);
    assert names[..1] == [names[0]];
    if p in m {
      AppendNothing(p);
      forall k | 0 <= k <= |rest| ensures p + rest[..k] == dir + names[..k + 1] {
        assert names[..k + 1] == [names[0]] + rest[..k];
        Assoc(dir, [names[0]], rest[..k]);
      }
      WalkNowhere(m, p, rest, links);
    }
  }

  // -------------------------------------------- what a copy is supposed to be

  /** All directory entries from below `src` down to `src + r` could be read. */
  predicate Visible(readable: Path -> bool, src: Path, r: Path) {
    forall k :: 0 < k <= |r| ==> readable(src + r[..k])
  }

  /** The pruned tree: regular files and directories, without anything named
      `.git` at any depth, and without entries that could not be read. */
  function CopiedAt(m: Files, readable: Path -> bool, src: Path, r: Path): Option<Entry> {
    var e := At(m, src, r);
    if ".git" !in r && Visible(readable, src, r) && e.Some? && (e.value.File? || e.value.Dir?) then e else None
  }

  /** Outside `dst` nothing changed, except that missing parents of `dst` may exist now. */
  ghost predicate OnlyAt(m: Files, after: Files, dst: Path) {
    && (forall p :: p in m && !(dst <= p) ==> p in after && after[p] == m[p])
    && (forall p :: p in after && !(dst <= p) && p !in m ==> p <= dst && after[p] == Dir)
  }

  // ------------------------------------------------------------------ lemmas

  lemma {:induction false} WithDirsClosed(m: Files, p: Path, n: nat)
    requires Closed(m) && Unblocked(m, p) && n <= |p|
    ensures Closed(WithDirs(m, p, n))
    ensures OnlyAt(m, WithDirs(m, p, n), p)
  {
    var after := WithDirs(m, p, n);
    forall q | q in after && q != [] ensures IsDir(after, q[..|q| - 1]) {
      if q in m {
        assert IsDir(m, q[..|q| - 1]);
      } else {
        var k :| 0 <= k <= n && q == p[..k];
        assert q[..|q| - 1] == p[..k - 1];
        assert p[..k - 1] in after;
      }
    }
  }

  lemma {:induction false} AtNil(m: Files, p: Path)
    ensures At(m, p, []) == if p in m then Some(m[p]) else None
  {
    assert p + [] == p;
  }

  lemma {:induction false} AtCons(m: Files, p: Path, n: string, r: Path)
    ensures At(m, p, [n] + r) == At(m, p + [n], r)
  {
    assert p + ([n] + r) == (p + [n]) + r;
  }

  lemma {:induction false} BelowNonDir(m: Files, p: Path, r: Path)
    requires Closed(m) && p in m && !m[p].Dir? && r != []
    ensures At(m, p, r).None?
    decreases |r|
  {
    var q, front := p + r, r[..|r| - 1];
    assert q in m ==> IsDir(m, q[..|q| - 1]);
    assert q[..|q| - 1] == p + front;
    if front == [] {
      AtNil(m, p);
    } else {
      BelowNonDir(m, p, front);
    }
  }

  lemma {:induction false} BelowMissing(m: Files, p: Path, r: Path)
    requires Closed(m) && p !in m
    ensures At(m, p, r).None?
    decreases |r|
  {
    if r == [] {
      AtNil(m, p);
    } else {
      var q := p + r;
      assert q in m ==> IsDir(m, q[..|q| - 1]);
      assert q[..|q| - 1] == p + r[..|r| - 1];
      BelowMissing(m, p, r[..|r| - 1]);
    }
  }

  lemma {:induction false} VisibleCons(readable: Path -> bool, p: Path, n: string, r: Path)
    ensures Visible(readable, p, [n] + r) <==> readable(p + [n]) && Visible(readable, p + [n], r)
  {
    var whole := [n] + r;
    assert whole[..1] == [n];
    forall k | 0 < k <= |r| ensures p + whole[..k + 1] == p + [n] + r[..k] {
      assert whole[..k + 1] == [n] + r[..k];
    }
    if Visible(readable, p, whole) {
      assert readable(p + whole[..1]);
      forall k | 0 < k <= |r| ensures readable(p + [n] + r[..k]) {
        assert readable(p + whole[..k + 1]);
      }
    }
    if readable(p + [n]) && Visible(readable, p + [n], r) {
      forall k | 0 < k <= |whole| ensures readable(p + whole[..k]) {
        if k > 1 {
          assert p + whole[..k - 1 + 1] == p + [n] + r[..k - 1];
          assert readable(p + [n] + r[..k - 1]);
        }
      }
    }
  }

  /** The pruned copy below a child of the source. */
  lemma {:induction false} CopiedCons(m: Files, readable: Path -> bool, src: Path, n: string, r: Path)
    ensures CopiedAt(m, readable, src, [n] + r) ==
            if n == ".git" || !readable(src + [n]) then None else CopiedAt(m, readable, src + [n], r)
  {
    AtCons(m, src, n, r);
    VisibleCons(readable, src, n, r);
    assert ".git" in [n] + r <==> n == ".git" || ".git" in r;
  }

  lemma {:induction false} SameBelow(m: Files, after: Files, dst: Path, src: Path, r: Path)
    requires OnlyAt(m, after, dst) && Apart(src, dst)
    ensures At(after, src, r) == At(m, src, r)
  {
    var p := src + r;
    assert src <= p;
    NotBoth(src, dst, p);
    NotAbove(src, dst, p);
  }

  lemma {:induction false} SparedParent(spared: Path -> bool, root: Path, p: Path)
    requires p != [] && (!(root <= p) || Spared(spared, root, p))
    ensures !(root <= p[..|p| - 1]) || Spared(spared, root, p[..|p| - 1])
  {
    var parent := p[..|p| - 1];
    if root <= parent {
      assert root <= p;
      forall k | |root| <= k <= |parent| ensures spared(parent[..k]) {
        assert parent[..k] == p[..k];
      }
    }
  }

  lemma {:induction false} RemoveAllClosed(f: Fault, m: Files, root: Path)
    requires Closed(m)
    ensures Closed(RemoveAll(f, m, root).1)
    ensures OnlyAt(m, RemoveAll(f, m, root).1, root)
    ensures forall p :: p in RemoveAll(f, m, root).1 ==> p in m && RemoveAll(f, m, root).1[p] == m[p]
    ensures RemoveAll(f, m, root).0 ==> Absent(RemoveAll(f, m, root).1, root)
  {
    var after := RemoveAll(f, m, root).1;
    if f.Halfway? && Removable(m, root) {
      forall p | p in after && p != [] ensures IsDir(after, p[..|p| - 1]) {
        assert IsDir(m, p[..|p| - 1]);
        SparedParent(f.spared, root, p);
      }
    } else if after != m {
      WithoutClosed(m, root);
    }
  }

  /** `after` is `m` with the tree at `a` moved to `b`. */
  ghost predicate IsMove(after: Files, m: Files, a: Path, b: Path) {
    forall q :: && (q in after <==> if b <= q then a + q[|b|..] in m else q in m && !(a <= q))
                && (q in after ==> after[q] == if b <= q then m[a + q[|b|..]] else m[q])
  }

  lemma {:induction false} RenameIsMove(f: Fault, m: Files, a: Path, b: Path)
    requires Absent(m, b) && Rename(f, m, a, b).0
    ensures IsMove(Rename(f, m, a, b).1, m, a, b)
  {
    var after := Rename(f, m, a, b).1;
    forall q | b <= q && a + q[|b|..] in m ensures q in after {
      var from := a + q[|b|..];
      assert from[|a|..] == q[|b|..] && b + from[|a|..] == q;
    }
    forall r: Path ensures b <= b + r {}
  }

  lemma {:induction false} MoveClosed(after: Files, m: Files, a: Path, b: Path)
    requires Closed(m) && Apart(a, b) && b != [] && IsDir(m, b[..|b| - 1])
    requires IsMove(after, m, a, b)
    ensures Closed(after)
  {
    forall q | q in after && q != [] ensures IsDir(after, q[..|q| - 1]) {
      if b <= q[..|q| - 1] {
        MovedParent(after, m, a, b, q);
      } else {
        KeptParent(after, m, a, b, q);
      }
    }
  }

  lemma {:induction false} MovedParent(after: Files, m: Files, a: Path, b: Path, q: Path)
    requires Closed(m) && IsMove(after, m, a, b)
    requires q in after && q != [] && b <= q[..|q| - 1]
    ensures IsDir(after, q[..|q| - 1])
  {
    var parent := q[..|q| - 1];
    var from := a + q[|b|..];
    assert from[..|from| - 1] == a + parent[|b|..];
    assert b <= q;
    assert IsDir(m, a + parent[|b|..]);
  }

  lemma {:induction false} KeptParent(after: Files, m: Files, a: Path, b: Path, q: Path)
    requires Closed(m) && Apart(a, b) && b != [] && IsDir(m, b[..|b| - 1])
    requires IsMove(after, m, a, b)
    requires q in after && q != [] && !(b <= q[..|q| - 1])
    ensures IsDir(after, q[..|q| - 1])
  {
    var parent := q[..|q| - 1];
    if b <= q {
      assert q == b;
    }
    assert IsDir(m, parent);
    if a <= parent {
      PrefixTrans(a, parent, q);
    }
  }

  lemma {:induction false} NotBoth(a: Path, b: Path, p: Path)
    requires Apart(a, b)
    ensures !(a <= p && b <= p)
  {
    if a <= p && b <= p {
      PrefixesCompare(a, b, p);
    }
  }

  lemma {:induction false} NotAbove(a: Path, b: Path, p: Path)
    requires Apart(a, b) && a <= p
    ensures !(p <= b)
  {
    if p <= b {
      PrefixTrans(a, p, b);
    }
  }

  lemma {:induction false} PrefixesCompare(a: Path, b: Path, p: Path)
    requires a <= p && b <= p
    ensures a <= b || b <= a
  {
    if |a| <= |b| {
      assert b[..|a|] == p[..|a|];
    } else {
      assert a[..|b|] == p[..|b|];
    }
  }

  lemma {:induction false} PrefixTrans(a: Path, b: Path, c: Path)
    requires a <= b && b <= c
    ensures a <= c
  {
    assert c[..|a|] == b[..|a|];
  }

  lemma {:induction false} PrefixOfSnoc(a: Path, b: Path, n: string)
    ensures a <= b + [n] <==> a <= b || a == b + [n]
  {
    if a <= b + [n] && |a| <= |b| {
      assert b[..|a|] == (b + [n])[..|a|];
    }
    if a <= b {
      assert b <= b + [n];
      PrefixTrans(a, b, b + [n]);
    }
  }

  lemma {:induction false} BelowSnoc(b: Path, n: string, p: Path)
    requires b + [n] <= p
    ensures b <= p && |p| > |b| && p[|b|] == n
  {
    assert b == (b + [n])[..|b|] == p[..|b|];
    assert (b + [n])[|b|] == n;
  }

  /** A whole tree moved to a fresh place. */
  lemma {:induction false} RenameMoves(f: Fault, m: Files, a: Path, b: Path)
    requires Closed(m) && Absent(m, b) && Apart(a, b)
    ensures var (ok, after) := Rename(f, m, a, b);
            && Closed(after)
            && (!ok ==> after == m)
            && (ok ==> Absent(after, a) && forall r :: At(after, b, r) == At(m, a, r))
            && (forall p :: !(a <= p) && !(b <= p) ==> (p in m <==> p in after) && (p in m ==> m[p] == after[p]))
            && (f.Fine? && a in m && b != [] && IsDir(m, b[..|b| - 1]) ==> ok)
  {
    assert b <= b;
    if Rename(f, m, a, b).0 {
      RenameIsMove(f, m, a, b);
      MoveClosed(Rename(f, m, a, b).1, m, a, b);
      MovedTree(Rename(f, m, a, b).1, m, a, b);
    }
  }

  lemma {:induction false} MovedTree(after: Files, m: Files, a: Path, b: Path)
    requires IsMove(after, m, a, b) && Apart(a, b)
    ensures Absent(after, a) && forall r :: At(after, b, r) == At(m, a, r)
  {
    forall r: Path ensures (b + r)[|b|..] == r {}
    forall p | p in after ensures !(a <= p) {
      if a <= p {
        NotBoth(a, b, p);
      }
    }
  }

  lemma {:induction false} WithoutClosed(m: Files, root: Path)
    requires Closed(m)
    ensures Closed(Without(m, root)) && OnlyAt(m, Without(m, root), root) && Absent(Without(m, root), root)
  {
    var after := Without(m, root);
    forall p | p in after && p != [] ensures IsDir(after, p[..|p| - 1]) {
      assert IsDir(m, p[..|p| - 1]);
    }
  }

  /** `after` is `m` with the kept part of `tree` written at `dst`. */
  ghost predicate IsGraft(after: Files, m: Files, dst: Path, tree: Files, kept: Path -> bool) {
    forall q :: && (q in after <==> if dst <= q then q[|dst|..] in tree && Spared(kept, dst, q) else q in m)
                && (q in after ==> after[q] == if dst <= q then tree[q[|dst|..]] else m[q])
  }

  lemma {:induction false} CloneIsGraft(f: Fault, m: Files, dst: Path, tree: Files)
    requires Absent(m, dst) && Clone(f, m, dst, tree).1 != m
    ensures IsGraft(Clone(f, m, dst, tree).1, m, dst, tree, if f.Halfway? then f.spared else (p => true))
  {
    var after, kept := Clone(f, m, dst, tree).1, if f.Halfway? then f.spared else (p => true);
    forall q
      ensures q in after <==> if dst <= q then q[|dst|..] in tree && Spared(kept, dst, q) else q in m
      ensures q in after ==> after[q] == if dst <= q then tree[q[|dst|..]] else m[q]
    {
      GraftedKey(m, dst, tree, kept, q);
    }
  }

  lemma {:induction false} GraftedKey(m: Files, dst: Path, tree: Files, kept: Path -> bool, q: Path)
    requires Absent(m, dst)
    ensures var keys := m.Keys + set r | r in tree && Spared(kept, dst, dst + r) :: dst + r;
            q in keys <==> if dst <= q then q[|dst|..] in tree && Spared(kept, dst, q) else q in m
  {
    if dst <= q {
      assert q == dst + q[|dst|..];
    }
    forall r | r in tree && dst + r == q ensures dst <= q && q[|dst|..] == r {}
  }

  lemma {:induction false} GraftClosed(after: Files, m: Files, dst: Path, tree: Files, kept: Path -> bool)
    requires Closed(m) && Closed(tree) && IsDir(tree, [])
    requires dst != [] && IsDir(m, dst[..|dst| - 1])
    requires IsGraft(after, m, dst, tree, kept)
    ensures Closed(after)
  {
    forall q | q in after && q != [] ensures IsDir(after, q[..|q| - 1]) {
      if dst <= q && q != dst {
        GraftedParent(after, m, dst, tree, kept, q);
      } else {
        UngraftedParent(after, m, dst, tree, kept, q);
      }
    }
  }

  lemma {:induction false} UngraftedParent(after: Files, m: Files, dst: Path, tree: Files, kept: Path -> bool, q: Path)
    requires Closed(m) && dst != [] && IsDir(m, dst[..|dst| - 1]) && IsGraft(after, m, dst, tree, kept)
    requires q in after && q != [] && (q == dst || !(dst <= q))
    ensures IsDir(after, q[..|q| - 1])
  {
    var parent := q[..|q| - 1];
    assert !(dst <= parent);
    assert IsDir(m, parent);
  }

  lemma {:induction false} GraftedParent(after: Files, m: Files, dst: Path, tree: Files, kept: Path -> bool, q: Path)
    requires Closed(tree) && IsGraft(after, m, dst, tree, kept)
    requires q in after && dst <= q && q != dst
    ensures IsDir(after, q[..|q| - 1])
  {
    var parent, r := q[..|q| - 1], q[|dst|..];
    assert dst <= parent && parent[|dst|..] == r[..|r| - 1];
    assert IsDir(tree, r[..|r| - 1]);
    forall k | |dst| <= k <= |parent| ensures kept(parent[..k]) {
      assert parent[..k] == q[..k];
    }
  }

  lemma {:induction false} CloneClosed(f: Fault, m: Files, dst: Path, tree: Files)
    requires Closed(m) && Absent(m, dst) && Closed(tree) && IsDir(tree, [])
    ensures var (ok, after) := Clone(f, m, dst, tree);
            Closed(after) && OnlyAt(m, after, dst)
  {
    var after := Clone(f, m, dst, tree).1;
    if after != m {
      CloneIsGraft(f, m, dst, tree);
      GraftClosed(after, m, dst, tree, if f.Halfway? then f.spared else (p => true));
    }
  }

  lemma {:induction false} CloneComplete(f: Fault, m: Files, dst: Path, tree: Files)
    requires Absent(m, dst) && IsDir(tree, []) && Clone(f, m, dst, tree).0
    ensures forall r :: At(Clone(f, m, dst, tree).1, dst, r) == if r in tree then Some(tree[r]) else None
  {
    var after := Clone(f, m, dst, tree).1;
    forall r: Path ensures (dst + r)[|dst|..] == r {}
    assert dst + [] == dst && dst in after;
    CloneIsGraft(f, m, dst, tree);
  }

  lemma {:induction false} WrittenClosed(m: Files, b: Path, content: string)
    requires Closed(m) && b != [] && IsDir(m, b[..|b| - 1]) && (b in m ==> m[b].File?)
    ensures Closed(m[b := File(content)]) && OnlyAt(m, m[b := File(content)], b)
  {
    var after := m[b := File(content)];
    assert b <= b;
    forall p | p in after && p != [] ensures IsDir(after, p[..|p| - 1]) {
      assert IsDir(m, p[..|p| - 1]);
    }
  }

  lemma {:induction false} CopyFileClosed(f: Fault, m: Files, a: Path, b: Path)
    requires Closed(m)
    ensures Closed(CopyFile(f, m, a, b).1) && OnlyAt(m, CopyFile(f, m, a, b).1, b)
  {
    var after := CopyFile(f, m, a, b).1;
    if after != m {
      WrittenClosed(m, b, if f.Halfway? then f.written else m[a].content);
    }
  }

  // --------------------------------------------------------- the file system

  /** What the copy has done once the children in `done` have been handled. */
  ghost predicate CopyProgress(m: Files, now: Files, readable: Path -> bool, src: Path, dst: Path, done: set<string>) {
    && Closed(now)
    && OnlyAt(m, now, dst)
    && IsDir(now, dst)
    && forall n, r :: At(now, dst + [n], r) == (if n in done then CopiedAt(m, readable, src, [n] + r) else None)
  }

  lemma {:induction false} MakeDirsFresh(f: Fault, limit: nat, m: Files, dst: Path)
    requires Closed(m) && Absent(m, dst)
    ensures var (ok, after) := MakeDirs(f, limit, m, dst);
            && Closed(after) && OnlyAt(m, after, dst)
            && (ok ==> IsDir(after, dst) && forall p :: p in after && dst <= p ==> p == dst)
  {
    if Unblocked(m, dst) {
      WithDirsClosed(m, dst, |dst|);
      if f.Halfway? && dst != [] {
        WithDirsClosed(m, dst, if f.depth < |dst| then f.depth else |dst| - 1);
      }
    }
    assert dst[..|dst|] == dst;
  }

  /** Every directory above `p` may appear, and nothing else changes. */
  ghost predicate OnlyAbove(m: Files, after: Files, p: Path) {
    && (forall q :: q in m ==> q in after && after[q] == m[q])
    && (forall q :: q in after && q !in m ==> q <= p && after[q] == Dir)
  }

  lemma {:induction false} WithDirsAbove(m: Files, p: Path, n: nat)
    requires n <= |p|
    ensures OnlyAbove(m, WithDirs(m, p, n), p)
    ensures n == |p| && Unblocked(m, p) ==> IsDir(WithDirs(m, p, n), p)
    ensures n < |p| && p !in m ==> p !in WithDirs(m, p, n)
  {
    assert p[..|p|] == p;
  }

  lemma {:induction false} MakeDirsAnywhere(f: Fault, limit: nat, m: Files, p: Path)
    requires Closed(m)
    ensures var (ok, after) := MakeDirs(f, limit, m, p);
            && Closed(after) && OnlyAbove(m, after, p)
            && (ok ==> IsDir(after, p))
            && (!ok && p !in m ==> p !in after)
  {
    if Unblocked(m, p) {
      var n := if f.Halfway? && p != [] then (if f.depth < |p| then f.depth else |p| - 1) else |p|;
      WithDirsClosed(m, p, n);
      WithDirsAbove(m, p, n);
    }
  }

  lemma {:induction false} SameSource(m: Files, now: Files, src: Path, dst: Path)
    requires OnlyAt(m, now, dst) && Apart(src, dst)
    ensures forall p :: src <= p ==> (p in m <==> p in now) && (p in m ==> m[p] == now[p])
    ensures IsDir(m, src) == IsDir(now, src) && Children(m, src) == Children(now, src)
  {
    forall p | src <= p ensures (p in m <==> p in now) && (p in m ==> m[p] == now[p]) {
      assert p == src + p[|src|..];
      SameBelow(m, now, dst, src, p[|src|..]);
    }
  }

  /** What one copied entry needs of the state, and what it may rely on. */
  lemma {:induction false} CopyFileWorks(f: Fault, m: Files, a: Path, dst: Path, n: string)
    requires a in m && m[a].File? && IsDir(m, dst) && Absent(m, dst + [n])
    ensures CopyFile(f, m, a, dst + [n]).0 ==> CopyFile(f, m, a, dst + [n]).1 == m[dst + [n] := m[a]]
    ensures f.Fine? ==> CopyFile(f, m, a, dst + [n]).0
  {
    assert (dst + [n])[..|dst + [n]| - 1] == dst;
  }

  lemma {:induction false} FreshStart(m: Files, now: Files, readable: Path -> bool, src: Path, dst: Path)
    requires Closed(now) && OnlyAt(m, now, dst) && IsDir(now, dst)
    requires forall p :: p in now && dst <= p ==> p == dst
    ensures CopyProgress(m, now, readable, src, dst, {})
  {
    forall n, r: Path ensures At(now, dst + [n], r).None? {
      assert dst <= dst + [n] + r && |dst + [n] + r| > |dst|;
    }
  }

  lemma {:induction false} ChildPath(m: Files, src: Path, n: string)
    requires n in Children(m, src)
    ensures src + [n] in m
  {
    var q :| q in m && |q| == |src| + 1 && src <= q && q[|src|] == n;
    assert q == src + [n];
  }

  lemma {:induction false} SkipStep(m: Files, now: Files, readable: Path -> bool, src: Path, dst: Path,
                                    done: set<string>, n: string)
    requires Closed(m) && CopyProgress(m, now, readable, src, dst, done) && n !in done
    requires src + [n] in m
    requires !readable(src + [n]) || n == ".git" || !(m[src + [n]].File? || m[src + [n]].Dir?)
    ensures CopyProgress(m, now, readable, src, dst, done + {n})
  {
    forall r ensures CopiedAt(m, readable, src, [n] + r).None? {
      CopiedCons(m, readable, src, n, r);
      AtNil(m, src + [n]);
      if r != [] && !m[src + [n]].Dir? {
        BelowNonDir(m, src + [n], r);
      }
    }
  }

  lemma {:induction false} NothingBelow(m: Files, root: Path)
    requires forall r :: At(m, root, r).None?
    ensures Absent(m, root)
  {
    forall p | root <= p ensures p !in m {
      assert p == root + p[|root|..];
      assert At(m, root, p[|root|..]).None?;
    }
  }

  lemma {:induction false} ChildUnblocked(now: Files, dst: Path, n: string)
    requires Closed(now) && IsDir(now, dst) && Absent(now, dst + [n])
    ensures Unblocked(now, dst + [n])
  {
    var child := dst + [n];
    forall k | 0 <= k <= |child| && child[..k] in now ensures now[child[..k]].Dir? {
      if k <= |dst| {
        assert child[..k] == dst[..k];
        AncestorIsDir(now, dst, k);
      }
    }
  }

  lemma {:induction false} SnocPrefix(a: Path, b: Path, n: string)
    ensures a + [n] <= b + [n] ==> a <= b
  {
    if a + [n] <= b + [n] {
      assert a == (a + [n])[..|a|] == (b + [n])[..|a|] == b[..|a|];
    }
  }

  lemma {:induction false} ApartChildren(src: Path, dst: Path, n: string)
    requires Apart(src, dst)
    ensures Apart(src + [n], dst + [n])
  {
    SnocPrefix(src, dst, n);
    SnocPrefix(dst, src, n);
  }

  lemma {:induction false} AncestorIsDir(m: Files, p: Path, k: nat)
    requires Closed(m) && IsDir(m, p) && k <= |p|
    ensures IsDir(m, p[..k])
    decreases |p| - k
  {
    if k == |p| {
      assert p[..k] == p;
    } else {
      AncestorIsDir(m, p, k + 1);
      var q := p[..k + 1];
      assert IsDir(m, q[..|q| - 1]);
      assert q[..|q| - 1] == p[..k];
    }
  }

  lemma {:induction false} OutsideChild(dst: Path, n: string, p: Path)
    ensures !(dst <= p) ==> !(dst + [n] <= p) && (p <= dst + [n] ==> p <= dst)
  {
    PrefixOfSnoc(p, dst, n);
    assert dst <= dst + [n];
    if dst + [n] <= p {
      PrefixTrans(dst, dst + [n], p);
    }
  }

  lemma {:induction false} SiblingsApart(p: Path, a: string, b: string)
    requires a != b
    ensures Apart(p + [a], p + [b])
  {
    assert (p + [a])[|p|] == a && (p + [b])[|p|] == b;
  }

  lemma {:induction false} OnlyAtChild(m: Files, before: Files, now: Files, dst: Path, n: string)
    requires OnlyAt(m, before, dst) && OnlyAt(before, now, dst + [n]) && IsDir(before, dst)
    ensures OnlyAt(m, now, dst) && IsDir(now, dst)
    ensures forall o, r :: o != n ==> At(now, dst + [o], r) == At(before, dst + [o], r)
  {
    forall p: Path | p in before || p in now || p in m {
      OutsideChild(dst, n, p);
    }
    assert !(dst + [n] <= dst);
    forall o, r: Path | o != n ensures At(now, dst + [o], r) == At(before, dst + [o], r) {
      SiblingsApart(dst, o, n);
      SameBelow(before, now, dst + [n], dst + [o], r);
    }
  }

  lemma {:induction false} DirStep(m: Files, before: Files, now: Files, readable: Path -> bool, src: Path, dst: Path,
                                   done: set<string>, n: string)
    requires CopyProgress(m, before, readable, src, dst, done) && n !in done && Apart(src, dst)
    requires Closed(now) && OnlyAt(before, now, dst + [n])
    requires readable(src + [n]) && n != ".git"
    requires forall r :: At(now, dst + [n], r) == CopiedAt(before, readable, src + [n], r)
    ensures CopyProgress(m, now, readable, src, dst, done + {n})
  {
    OnlyAtChild(m, before, now, dst, n);
    forall r ensures At(now, dst + [n], r) == CopiedAt(m, readable, src, [n] + r) {
      CopiedCons(m, readable, src, n, r);
      SameBelow(m, before, dst, src, [n] + r);
      AtCons(m, src, n, r);
      AtCons(before, src, n, r);
    }
  }

  lemma {:induction false} FileStep(m: Files, before: Files, now: Files, readable: Path -> bool, src: Path, dst: Path,
                                    done: set<string>, n: string)
    requires Closed(m) && CopyProgress(m, before, readable, src, dst, done) && n !in done && Apart(src, dst)
    requires src + [n] in m && m[src + [n]].File?
    requires now == before[dst + [n] := m[src + [n]]] && Closed(now) && OnlyAt(before, now, dst + [n])
    requires readable(src + [n]) && n != ".git"
    ensures CopyProgress(m, now, readable, src, dst, done + {n})
  {
    OnlyAtChild(m, before, now, dst, n);
    forall r ensures At(now, dst + [n], r) == CopiedAt(m, readable, src, [n] + r) {
      CopiedCons(m, readable, src, n, r);
      AtNil(m, src + [n]);
      AtNil(now, dst + [n]);
      if r != [] {
        BelowNonDir(m, src + [n], r);
        assert At(before, dst + [n], r).None?;
        assert dst + [n] + r != dst + [n];
      }
    }
  }

  lemma {:induction false} CopyDoneAt(m: Files, now: Files, readable: Path -> bool, src: Path, dst: Path,
                                      done: set<string>, n: string, rest: Path)
    requires Closed(m) && done == Children(m, src)
    requires CopyProgress(m, now, readable, src, dst, done)
    ensures At(now, dst, [n] + rest) == CopiedAt(m, readable, src, [n] + rest)
  {
    AtCons(now, dst, n, rest);
    if n !in done {
      assert (src + [n])[|src|] == n;
      BelowMissing(m, src + [n], rest);
      CopiedCons(m, readable, src, n, rest);
    }
  }

  lemma {:induction false} CopyDone(m: Files, now: Files, readable: Path -> bool, src: Path, dst: Path,
                                    done: set<string>)
    requires Closed(m) && IsDir(m, src) && done == Children(m, src)
    requires CopyProgress(m, now, readable, src, dst, done)
    ensures forall r :: At(now, dst, r) == CopiedAt(m, readable, src, r)
  {
    forall r ensures At(now, dst, r) == CopiedAt(m, readable, src, r) {
      if r == [] {
        AtNil(m, src);
        AtNil(now, dst);
      } else {
        HeadAndTail(r);
        CopyDoneAt(m, now, readable, src, dst, done, r[0], r[1..]);
      }
    }
  }

  /** `src` leads to a directory that neither holds `dst` nor lies in it. */
  ghost predicate ReadsApart(m: Files, src: Path, dst: Path) {
    IsRealDir(m, src) && Apart(Real(m, src).value, dst)
  }

  /** Copied to `dst`, everything below `src` stays within the longest path. */
  ghost predicate Fits(m: Files, src: Path, dst: Path, limit: nat) {
    |dst| <= limit && forall p :: p in m && src <= p ==> |dst| + |p| - |src| <= limit
  }

  /** `dst` is being filled, one child at a time. */
  ghost predicate Filling(m: Files, now: Files, dst: Path, done: set<string>) {
    && Closed(now) && OnlyAt(m, now, dst) && IsDir(now, dst)
    && forall n :: n !in done ==> Absent(now, dst + [n])
  }

  /** While `dst` is filled from a directory apart from it. */
  ghost predicate CopyReads(m: Files, now: Files, readable: Path -> bool, src: Path, dst: Path, done: set<string>) {
    Closed(m) && IsDir(m, src) && CopyProgress(m, now, readable, src, dst, done)
  }

  lemma {:induction false} MadeGrows(m: Files, now: Files, dst: Path)
    requires Absent(m, dst) && OnlyAt(m, now, dst)
    ensures Grows(m, now)
  {
  }

  /** The empty directory `dst` has been made. */
  ghost predicate Made(m: Files, now: Files, dst: Path) {
    Closed(now) && OnlyAt(m, now, dst) && IsDir(now, dst) && forall p :: p in now && dst <= p ==> p == dst
  }

  /** `src` leads to something that is not a directory. */
  predicate LeadsToFile(m: Files, src: Path) {
    Real(m, src).Some? && Real(m, src).value in m && !IsDir(m, Real(m, src).value)
  }

  lemma {:induction false} LookupKept(m: Files, now: Files, src: Path, dst: Path)
    requires Absent(m, dst) && OnlyAt(m, now, dst)
    ensures IsRealDir(m, src) ==> IsRealDir(now, src) && Real(now, src) == Real(m, src)
    ensures LeadsToFile(m, src) ==> !IsRealDir(now, src)
  {
    MadeGrows(m, now, dst);
    if Real(m, src).Some? {
      WalkGrows(m, now, [], src, LINK_LIMIT);
    }
  }

  /** The freshly made `dst` is empty. */
  lemma {:induction false} CopyStarts(m: Files, now: Files, readable: Path -> bool, src: Path, dst: Path)
    requires Closed(m) && Absent(m, dst) && Made(m, now, dst)
    ensures Filling(m, now, dst, {})
    ensures Apart(src, dst) && IsDir(now, src) ==>
            CopyReads(m, now, readable, src, dst, {}) && Children(now, src) == Children(m, src)
  {
    forall n, p | p in now ensures !(dst + [n] <= p) {
      if dst + [n] <= p {
        BelowSnoc(dst, n, p);
      }
    }
    if Apart(src, dst) && IsDir(now, src) {
      SameSource(m, now, src, dst);
      FreshStart(m, now, readable, src, dst);
    }
  }

  /** The next directory on the way down to `dst` is there. */
  lemma {:induction false} OnTheWay(now: Files, src: Path, dst: Path)
    requires Closed(now) && IsDir(now, dst)
    ensures src <= dst && src != dst ==>
              && dst[|src|] in Children(now, src) && IsDir(now, src + [dst[|src|]])
              && src + [dst[|src|]] <= dst <= dst + [dst[|src|]]
  {
    if src <= dst && src != dst {
      var next := src + [dst[|src|]];
      assert dst[..|src| + 1] == next;
      AncestorIsDir(now, dst, |src| + 1);
      assert next[|src|] == dst[|src|];
    }
  }

  lemma {:induction false} EntrySkipped(m: Files, now: Files, readable: Path -> bool, src: Path, dst: Path,
                                        done: set<string>, n: string)
    requires Filling(m, now, dst, done) && n !in done
    requires Apart(src, dst) ==> CopyReads(m, now, readable, src, dst, done)
    requires Apart(src, dst) ==>
             src + [n] in m && (readable(src + [n]) && n != ".git" ==> !m[src + [n]].File? && !m[src + [n]].Dir?)
    ensures Filling(m, now, dst, done + {n})
    ensures Apart(src, dst) ==> CopyReads(m, now, readable, src, dst, done + {n})
  {
    if Apart(src, dst) {
      SkipStep(m, now, readable, src, dst, done, n);
    }
  }

  /** A listed entry is still there; seen from the state before the copy, it is the same. */
  lemma {:induction false} EntryThere(m: Files, listed: Files, now: Files, readable: Path -> bool, src: Path, dst: Path,
                                      done: set<string>, n: string)
    requires n in Children(listed, src) && Grows(listed, now)
    requires Apart(src, dst) ==> CopyReads(m, now, readable, src, dst, done) && n in Children(m, src)
    ensures src + [n] in now
    ensures Apart(src, dst) ==> src + [n] in m && m[src + [n]] == now[src + [n]]
  {
    ChildPath(listed, src, n);
    if Apart(src, dst) {
      ChildPath(m, src, n);
      SameSource(m, now, src, dst);
      assert src <= src + [n];
    }
  }

  /** A child that was written leaves its siblings as they were. */
  lemma {:induction false} EntryCopied(m: Files, listed: Files, before: Files, now: Files, dst: Path, done: set<string>,
                                       n: string)
    requires Filling(m, before, dst, done) && n !in done && Closed(now) && OnlyAt(before, now, dst + [n])
    requires Grows(listed, before)
    ensures Filling(m, now, dst, done + {n}) && Grows(listed, now)
  {
    OnlyAtChild(m, before, now, dst, n);
    MadeGrows(before, now, dst + [n]);
    forall o | o !in done + {n} ensures Absent(now, dst + [o]) {
      forall r ensures At(now, dst + [o], r).None? {
        assert dst + [o] <= dst + [o] + r;
        assert At(now, dst + [o], r) == At(before, dst + [o], r);
      }
      NothingBelow(now, dst + [o]);
    }
  }

  /** What the copy of a subdirectory starts from. */
  lemma {:induction false} DirEntry(m: Files, before: Files, src: Path, dst: Path, done: set<string>, n: string,
                                    limit: nat)
    requires Filling(m, before, dst, done) && n !in done && IsDir(before, src + [n])
    ensures Absent(before, dst + [n]) && Unblocked(before, dst + [n])
    ensures Real(before, src + [n]) == Some(src + [n])
    ensures Apart(src, dst) ==> Apart(src + [n], dst + [n])
    ensures Apart(src, dst) && Fits(m, src, dst, limit) ==> Fits(before, src + [n], dst + [n], limit)
    ensures src <= dst && src != dst && n == dst[|src|] ==> src + [n] <= dst <= dst + [n] && |src + [n]| < |dst + [n]|
  {
    ChildUnblocked(before, dst, n);
    RealIsReal(before, src + [n]);
    OnTheWay(before, src, dst);
    if Apart(src, dst) {
      ApartChildren(src, dst, n);
      if Fits(m, src, dst, limit) {
        ChildFits(m, before, src, dst, n, limit);
      }
    }
  }

  lemma {:induction false} ChildFits(m: Files, before: Files, src: Path, dst: Path, n: string, limit: nat)
    requires OnlyAt(m, before, dst) && IsDir(before, src + [n]) && Apart(src, dst) && Fits(m, src, dst, limit)
    ensures Fits(before, src + [n], dst + [n], limit)
  {
    SameSource(m, before, src, dst);
    assert src <= src + [n];
    forall p | p in before && src + [n] <= p ensures |dst + [n]| + |p| - |src + [n]| <= limit {
      BelowSnoc(src, n, p);
    }
    assert src + [n] in m;
  }

  /** What the copy of a regular file does. */
  lemma {:induction false} FileEntry(f: Fault, before: Files, a: Path, dst: Path, n: string)
    requires Closed(before) && IsDir(before, dst) && Absent(before, dst + [n])
    requires a in before && before[a].File?
    ensures var (ok, now) := CopyFile(f, before, a, dst + [n]);
            && Closed(now) && OnlyAt(before, now, dst + [n])
            && (ok ==> now == before[dst + [n] := before[a]]) && (f.Fine? ==> ok)
  {
    CopyFileClosed(f, before, a, dst + [n]);
    CopyFileWorks(f, before, a, dst, n);
  }

  lemma {:induction false} DirCopied(m: Files, before: Files, now: Files, readable: Path -> bool, src: Path, dst: Path,
                                     done: set<string>, n: string)
    requires n !in done && readable(src + [n]) && n != ".git"
    requires Closed(now) && OnlyAt(before, now, dst + [n])
    requires Apart(src, dst) ==> CopyReads(m, before, readable, src, dst, done)
    requires Apart(src, dst) ==> forall r :: At(now, dst + [n], r) == CopiedAt(before, readable, src + [n], r)
    ensures Apart(src, dst) ==> CopyReads(m, now, readable, src, dst, done + {n})
  {
    if Apart(src, dst) {
      DirStep(m, before, now, readable, src, dst, done, n);
    }
  }

  lemma {:induction false} FileCopied(m: Files, before: Files, now: Files, readable: Path -> bool, src: Path, dst: Path,
                                      done: set<string>, n: string)
    requires n !in done && readable(src + [n]) && n != ".git" && Apart(src, dst)
    requires CopyReads(m, before, readable, src, dst, done)
    requires src + [n] in before && before[src + [n]].File?
    requires now == before[dst + [n] := before[src + [n]]] && Closed(now) && OnlyAt(before, now, dst + [n])
    ensures CopyReads(m, now, readable, src, dst, done + {n})
  {
    SameSource(m, before, src, dst);
    assert src <= src + [n];
    FileStep(m, before, now, readable, src, dst, done, n);
  }

  ghost predicate Splits(all: set<string>, done: set<string>, remaining: set<string>) {
    done !! remaining && done + remaining == all
  }

  lemma {:induction false} SplitsNext(all: set<string>, done: set<string>, remaining: set<string>, n: string)
    requires Splits(all, done, remaining) && n in remaining
    ensures n in all - done
    ensures Splits(all, done + {n}, remaining - {n})
    ensures remaining - {n} == {} ==> done + {n} == all
  {
  }

  class FileSystem {
    var entries: Files
    /** How the n-th operation goes. */
    const plan: nat -> Fault
    var clock: nat
    /** Whether a directory entry can be read; one that cannot is silently skipped. */
    const readable: Path -> bool
    /** The longest path that can be created. */
    const depthLimit: nat

    constructor (entries: Files, plan: nat -> Fault, readable: Path -> bool, depthLimit: nat)
      ensures this.entries == entries && this.plan == plan && this.readable == readable && this.depthLimit == depthLimit
      ensures clock == 0
    {
      this.entries, this.plan, this.readable, this.depthLimit, clock := entries, plan, readable, depthLimit, 0;
    }

    ghost predicate Faultless() {
      forall k :: plan(k).Fine?
    }

    method Tick() returns (f: Fault)
      modifies this`clock
      ensures f == plan(old(clock)) && clock == old(clock) + 1
    {
      f, clock := plan(clock), clock + 1;
    }

    method CreateDirAll(p: Path) returns (ok: bool)
      modifies this`entries, this`clock
      ensures (ok, entries) == MakeDirs(plan(old(clock)), depthLimit, old(entries), p)
    {
      var f := Tick();
      var (done, after) := MakeDirs(f, depthLimit, entries, p);
      ok, entries := done, after;
    }

    method RemoveDirAll(p: Path) returns (ok: bool)
      modifies this`entries, this`clock
      ensures (ok, entries) == RemoveAll(plan(old(clock)), old(entries), p)
    {
      var f := Tick();
      var (done, after) := RemoveAll(f, entries, p);
      ok, entries := done, after;
    }

    /** Cleanup, which is taken to succeed. */
    method Discard(p: Path)
      modifies this`entries
      ensures entries == Without(old(entries), p)
    {
      entries := Without(entries, p);
    }

    method Move(a: Path, b: Path) returns (ok: bool)
      modifies this`entries, this`clock
      ensures (ok, entries) == Rename(plan(old(clock)), old(entries), a, b)
    {
      var f := Tick();
      var (done, after) := Rename(f, entries, a, b);
      ok, entries := done, after;
    }

    method Copy(a: Path, b: Path) returns (ok: bool)
      modifies this`entries, this`clock
      ensures (ok, entries) == CopyFile(plan(old(clock)), old(entries), a, b)
    {
      var f := Tick();
      var (done, after) := CopyFile(f, entries, a, b);
      ok, entries := done, after;
    }

    method CloneInto(dst: Path, tree: Files) returns (ok: bool)
      modifies this`entries, this`clock
      ensures (ok, entries) == Clone(plan(old(clock)), old(entries), dst, tree)
    {
      var f := Tick();
      var (done, after) := Clone(f, entries, dst, tree);
      ok, entries := done, after;
    }

    method ReadDir(p: Path) returns (r: Option<set<string>>)
      modifies this`clock
      ensures r.Some? ==> IsDir(entries, p) && r.value == Children(entries, p)
      ensures plan(old(clock)).Fine? && IsDir(entries, p) ==> r.Some?
    {
      var f := Tick();
      return if f.Fine? && IsDir(entries, p) then Some(Children(entries, p)) else None;
    }

    method FileType(p: Path) returns (r: Option<Entry>)
      requires p in entries
      modifies this`clock
      ensures r.Some? ==> r.value == entries[p]
      ensures plan(old(clock)).Fine? ==> r.Some?
    {
      var f := Tick();
      return if f.Fine? then Some(entries[p]) else None;
    }

    /** `src` is a proper ancestor of `dst` and nothing on the way is skipped. */
    ghost predicate Into(src: Path, dst: Path) {
      src <= dst && src != dst && ".git" !in dst && forall p :: readable(p)
    }

    /** How much deeper directories can still be made. */
    ghost function Room(dst: Path): nat {
      if |dst| <= depthLimit then depthLimit + 1 - |dst| else 0
    }

    /** Copy the directory that `src` leads to, to the fresh location `dst`.
        Success means the pruned tree is there, whole; failure leaves only `dst`
        touched. A copy into itself goes on until paths are too long, and fails. */
    method CopyDir(src: Path, dst: Path) returns (ok: bool)
      requires Closed(entries) && Absent(entries, dst)
      modifies this`entries, this`clock
      ensures Closed(entries) && OnlyAt(old(entries), entries, dst)
      ensures ok ==> IsDir(entries, dst)
      ensures LeadsToFile(old(entries), src) ==> !ok
      ensures ok && ReadsApart(old(entries), src, dst) ==>
                (forall r :: At(entries, dst, r) == CopiedAt(old(entries), readable, Real(old(entries), src).value, r))
      ensures IsRealDir(old(entries), src) && Into(Real(old(entries), src).value, dst) ==> !ok
      ensures (&& Faultless() && ReadsApart(old(entries), src, dst) && Unblocked(old(entries), dst)
               && Fits(old(entries), Real(old(entries), src).value, dst, depthLimit)) ==> ok
      decreases Room(dst), 4
    {
      ghost var m := entries;
      MakeDirsFresh(plan(clock), depthLimit, m, dst);
      ok := CreateDirAll(dst);
      if ok {
        LookupKept(m, entries, src, dst);
        ok := CopyListed(src, dst, m);
      }
    }

    /** The copy once the empty `dst` has been made; `m` is the state before that. */
    method CopyListed(src: Path, dst: Path, ghost m: Files) returns (ok: bool)
      requires Closed(m) && Absent(m, dst) && Made(m, entries, dst) && |dst| <= depthLimit
      modifies this`entries, this`clock
      ensures Closed(entries) && OnlyAt(m, entries, dst)
      ensures ok ==> IsDir(entries, dst) && IsRealDir(old(entries), src)
      ensures ok && ReadsApart(old(entries), src, dst) ==>
                (forall r :: At(entries, dst, r) == CopiedAt(m, readable, Real(old(entries), src).value, r))
      ensures IsRealDir(old(entries), src) && Into(Real(old(entries), src).value, dst) ==> !ok
      ensures (&& Faultless() && ReadsApart(old(entries), src, dst)
               && Fits(m, Real(old(entries), src).value, dst, depthLimit)) ==> ok
      decreases Room(dst), 3
    {
      var place := Real(entries, src);
      if place.None? {
        return false;
      }
      var names := ReadDir(place.value);
      if names.None? {
        return false;
      }
      CopyStarts(m, entries, readable, place.value, dst);
      OnTheWay(entries, place.value, dst);
      ok := CopyEntries(place.value, dst, names.value, m);
      if ok && Apart(place.value, dst) {
        CopyDone(m, entries, readable, place.value, dst, names.value);
      }
    }

    /** `m` is the state before `dst` was made. */
    method CopyEntries(src: Path, dst: Path, names: set<string>, ghost m: Files) returns (ok: bool)
      requires Filling(m, entries, dst, {}) && IsDir(entries, src) && names == Children(entries, src)
               && |dst| <= depthLimit
      requires Apart(src, dst) ==> CopyReads(m, entries, readable, src, dst, {}) && names == Children(m, src)
      modifies this`entries, this`clock
      ensures Closed(entries) && OnlyAt(m, entries, dst)
      ensures ok ==> IsDir(entries, dst)
      ensures ok && Apart(src, dst) ==> CopyProgress(m, entries, readable, src, dst, names)
      ensures Into(src, dst) && dst[|src|] in names ==> !ok
      ensures Faultless() && Apart(src, dst) && Fits(m, src, dst, depthLimit) ==> ok
      decreases Room(dst), 2
    {
      ghost var listed := entries;
      var remaining := names;
      ghost var done := {};
      while remaining != {}
        invariant Splits(names, done, remaining)
        invariant Filling(m, entries, dst, done) && Grows(listed, entries)
        invariant Apart(src, dst) ==> CopyReads(m, entries, readable, src, dst, done)
        invariant Into(src, dst) ==> dst[|src|] !in done
        decreases remaining
      {
        var n :| n in remaining;
        SplitsNext(names, done, remaining, n);
        ok := CopyEntry(src, dst, n, m, listed, done);
        if !ok {
          return;
        }
        remaining, done := remaining - {n}, done + {n};
      }
      return true;
    }

    /** One round of the copy: `.git`, unreadable entries, symlinks and special
        files are passed over; directories and regular files are copied. */
    method CopyEntry(src: Path, dst: Path, n: string, ghost m: Files, ghost listed: Files, ghost done: set<string>)
      returns (ok: bool)
      requires Filling(m, entries, dst, done) && n !in done && |dst| <= depthLimit
      requires n in Children(listed, src) && Grows(listed, entries)
      requires Apart(src, dst) ==> CopyReads(m, entries, readable, src, dst, done) && n in Children(m, src)
      modifies this`entries, this`clock
      ensures Closed(entries) && OnlyAt(m, entries, dst)
      ensures ok ==> Filling(m, entries, dst, done + {n}) && Grows(listed, entries)
      ensures ok && Apart(src, dst) ==> CopyReads(m, entries, readable, src, dst, done + {n})
      ensures Into(src, dst) && n == dst[|src|] ==> !ok
      ensures Faultless() && Apart(src, dst) && Fits(m, src, dst, depthLimit) ==> ok
      decreases Room(dst), 1
    {
      EntryThere(m, listed, entries, readable, src, dst, done, n);
      OnTheWay(entries, src, dst);
      if !readable(src + [n]) || n == ".git" {
        EntrySkipped(m, entries, readable, src, dst, done, n);
        return true;
      }
      var kind := FileType(src + [n]);
      if kind.None? {
        return false;
      }
      if kind.value.Dir? {
        ok := CopySubdirectory(src, dst, n, m, listed, done);
      } else if kind.value.File? {
        ok := CopyRegular(src, dst, n, m, listed, done);
      } else {
        EntrySkipped(m, entries, readable, src, dst, done, n);
        ok := true;
      }
    }

    method CopySubdirectory(src: Path, dst: Path, n: string, ghost m: Files, ghost listed: Files,
                            ghost done: set<string>)
      returns (ok: bool)
      requires Filling(m, entries, dst, done) && n !in done && |dst| <= depthLimit && Grows(listed, entries)
      requires IsDir(entries, src + [n]) && readable(src + [n]) && n != ".git"
      requires Apart(src, dst) ==> CopyReads(m, entries, readable, src, dst, done)
      modifies this`entries, this`clock
      ensures Closed(entries) && OnlyAt(m, entries, dst)
      ensures ok ==> Filling(m, entries, dst, done + {n}) && Grows(listed, entries)
      ensures ok && Apart(src, dst) ==> CopyReads(m, entries, readable, src, dst, done + {n})
      ensures Into(src, dst) && n == dst[|src|] ==> !ok
      ensures Faultless() && Apart(src, dst) && Fits(m, src, dst, depthLimit) ==> ok
      decreases Room(dst), 0
    {
      ghost var before := entries;
      DirEntry(m, before, src, dst, done, n, depthLimit);
      ok := CopyDir(src + [n], dst + [n]);
      EntryCopied(m, listed, before, entries, dst, done, n);
      if ok {
        DirCopied(m, before, entries, readable, src, dst, done, n);
      }
    }

    method CopyRegular(src: Path, dst: Path, n: string, ghost m: Files, ghost listed: Files, ghost done: set<string>)
      returns (ok: bool)
      requires Filling(m, entries, dst, done) && n !in done && Grows(listed, entries)
      requires src + [n] in entries && entries[src + [n]].File? && readable(src + [n]) && n != ".git"
      requires Apart(src, dst) ==> CopyReads(m, entries, readable, src, dst, done)
      modifies this`entries, this`clock
      ensures Closed(entries) && OnlyAt(m, entries, dst)
      ensures ok ==> Filling(m, entries, dst, done + {n}) && Grows(listed, entries)
      ensures ok && Apart(src, dst) ==> CopyReads(m, entries, readable, src, dst, done + {n})
      ensures Faultless() ==> ok
    {
      ghost var before := entries;
      ghost var f := plan(clock);
      FileEntry(f, before, src + [n], dst, n);
      ok := Copy(src + [n], dst + [n]);
      EntryCopied(m, listed, before, entries, dst, done, n);
      if ok && Apart(src, dst) {
        FileCopied(m, before, entries, readable, src, dst, done, n);
      }
    }
  }
}
