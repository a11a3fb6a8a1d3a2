/** Which directory a skill is installed from when the fetched tree holds
    symbolic links: discovery (crates/bitrouter-skills/src/frontmatter.rs) and the
    copy (crates/bitrouter-skills/src/install.rs) follow links on the way to a
    directory, and only the entries inside a copied directory are tested for being links. */
module LinkTrace {
  import opened Wrappers
  import opened Strings
  import opened FileTree
  import Frontmatter
  import SkillSource
  import SkillInstall

  /** Where a lookup inside a tree ends, as far as the tree alone decides it:
      at a place in it, nowhere, or out of it, with names still to be followed
      from the root or from so many directories above the tree. */
  datatype Reach = Within(place: Path) | Nowhere | Outside(absolute: bool, above: nat, names: Path, links: nat)

  function Trace(u: Files, dir: Path, names: Path, links: nat): Reach
    decreases links, |names|
  {
    if names == [] then Within(dir)
    else
      var p, rest := dir + [names[0]], names[1..];
      if p !in u then Nowhere
      else
        match u[p]
        case Symlink(link) =>
          if links == 0 then Nowhere
          else if link.absolute then Outside(true, 0, link.names + rest, links - 1)
          else if link.ups > |dir| then Outside(false, link.ups - |dir|, link.names + rest, links - 1)
          else Trace(u, LinkBase(dir, link), link.names + rest, links - 1)
        case Dir => Trace(u, p, rest, links)
        case _ => if rest == [] then Within(p) else Nowhere
  }

  function Reached(u: Files, rel: Path): Reach {
    Trace(u, [], rel, LINK_LIMIT)
  }

  /** The tree below `temp` is `u`. */
  ghost predicate Holds(now: Files, temp: Path, u: Files) {
    forall r :: At(now, temp, r) == if r in u then Some(u[r]) else None
  }

  /** A file system with `u` at `temp`, which is not the root. */
  ghost predicate Surrounds(now: Files, temp: Path, u: Files) {
    Closed(now) && temp != [] && IsDir(now, temp) && Holds(now, temp, u)
  }

  /** Where the lookup ends in a file system that holds the tree at `temp`. */
  function Landing(now: Files, temp: Path, reach: Reach): Option<Path> {
    match reach
    case Within(place) => Some(temp + place)
    case Nowhere => None
    case Outside(absolute, above, names, links) =>
      Walk(now, if absolute || above > |temp| then [] else temp[..|temp| - above], names, links)
  }

  lemma {:induction false} HoldsAt(now: Files, temp: Path, u: Files, r: Path)
    requires Holds(now, temp, u)
    ensures temp + r in now <==> r in u
    ensures r in u ==> now[temp + r] == u[r]
  {
    assert At(now, temp, r) == if r in u then Some(u[r]) else None;
  }

  lemma {:induction false} BaseInside(temp: Path, dir: Path, ups: nat)
    requires ups <= |dir|
    ensures (temp + dir)[..|temp + dir| - ups] == temp + dir[..|dir| - ups]
  {
  }

  lemma {:induction false} BaseOutside(temp: Path, dir: Path, ups: nat)
    requires |dir| < ups <= |temp| + |dir|
    ensures (temp + dir)[..|temp + dir| - ups] == temp[..|temp| - (ups - |dir|)]
  {
  }

  lemma {:induction false} Suffix(temp: Path, dir: Path)
    requires temp <= dir
    ensures temp + dir[|temp|..] == dir
  {
  }

  /** The trace decides every lookup below `temp`, up to where it leaves. */
  lemma {:induction false} TraceIsWalk(now: Files, temp: Path, u: Files, dir: Path, names: Path, links: nat)
    requires Holds(now, temp, u)
    ensures Walk(now, temp + dir, names, links) == Landing(now, temp, Trace(u, dir, names, links))
    decreases links, |names|
  {
    if names != [] {
      var p, rest := dir + [names[0]], names[1..];
      Assoc(temp, dir, [names[0]]);
      HoldsAt(now, temp, u, p);
      if p in u {
        match u[p]
        case Symlink(link) =>
          if links > 0 && !link.absolute {
            if link.ups <= |dir| {
              BaseInside(temp, dir, link.ups);
              TraceIsWalk(now, temp, u, LinkBase(dir, link), link.names + rest, links - 1);
            } else if link.ups <= |temp| + |dir| {
              BaseOutside(temp, dir, link.ups);
            }
          }
        case Dir => TraceIsWalk(now, temp, u, p, rest, links);
        case _ =>
      }
    }
  }

  lemma {:induction false} LookupInTemp(now: Files, temp: Path, u: Files, rel: Path)
    requires Closed(now) && IsDir(now, temp) && Holds(now, temp, u)
    ensures Real(now, temp + rel) == Landing(now, temp, Reached(u, rel))
  {
    EmptyFirst(temp);
    AppendNothing(temp);
    WalkThrough(now, [], temp, rel, LINK_LIMIT);
    TraceIsWalk(now, temp, u, [], rel, LINK_LIMIT);
  }

  // ------------------------------------------------------ paths that may leave

  /** Looking `rel` up leaves the tree. */
  predicate Leaves(u: Files, rel: Path) {
    Reached(u, rel).Outside?
  }

  /** Neither the search root nor, when it is a directory, an entry of it leads out of the tree. */
  predicate BaseStays(u: Files, base: Path) {
    && !Leaves(u, base)
    && (Reached(u, base).Within? && IsDir(u, Reached(u, base).place) ==>
          forall n :: n in Children(u, Reached(u, base).place) ==> !Leaves(u, base + [n]))
  }

  /** No path searched below `root` passes through a link that leaves the tree. */
  predicate SearchStays(u: Files, root: Path) {
    forall base :: base in Frontmatter.SearchRoots(root) ==> BaseStays(u, base)
  }

  /** As when every entry can be read. */
  predicate Anything(p: Path) {
    true
  }

  /** A skill that discovery offers. */
  predicate Offered(now: Files, yaml: Frontmatter.Yaml, readable: Path -> bool, root: Path, dir: Path) {
    Frontmatter.Searched(now, readable, root, dir) && Frontmatter.SkillIn(now, yaml, dir).Some?
  }

  lemma {:induction false} RootsInTemp(temp: Path, root: Path)
    ensures forall k :: 0 <= k < 3 ==>
            Frontmatter.SearchRoots(temp + root)[k] == temp + Frontmatter.SearchRoots(root)[k]
    ensures |Frontmatter.SearchRoots(root)| == 3 == |Frontmatter.SearchRoots(temp + root)|
  {
    Assoc(temp, root, ["skills"]);
    Assoc(temp, root, [".claude", "skills"]);
  }

  lemma {:induction false} RootFromTemp(temp: Path, root: Path, base: Path)
    ensures base in Frontmatter.SearchRoots(temp + root) <==>
            temp <= base && base[|temp|..] in Frontmatter.SearchRoots(root)
    ensures temp <= base ==> base == temp + base[|temp|..]
  {
    RootsInTemp(temp, root);
    var all, there := Frontmatter.SearchRoots(root), Frontmatter.SearchRoots(temp + root);
    if base in there {
      var k :| 0 <= k < |there| && there[k] == base;
      DropPast(temp, all[k], |temp|);
      assert base[|temp|..] == all[k];
    }
    if temp <= base && base[|temp|..] in all {
      var k :| 0 <= k < |all| && all[k] == base[|temp|..];
      assert there[k] == base;
    }
  }

  lemma {:induction false} ChildrenInTemp(now: Files, temp: Path, u: Files, place: Path, n: string)
    requires Holds(now, temp, u)
    ensures n in Children(now, temp + place) <==> n in Children(u, place)
    ensures IsDir(now, temp + place) <==> IsDir(u, place)
  {
    HoldsAt(now, temp, u, place);
    HoldsAt(now, temp, u, place + [n]);
    Assoc(temp, place, [n]);
    ChildIff(now, temp + place, n);
    ChildIff(u, place, n);
  }

  lemma {:induction false} ChildIff(m: Files, p: Path, n: string)
    ensures n in Children(m, p) <==> p + [n] in m
  {
    if n in Children(m, p) {
      ChildPath(m, p, n);
    }
    if p + [n] in m {
      assert p <= p + [n] && (p + [n])[|p|] == n;
    }
  }

  /** Nothing offered in a tree whose search stays lies outside of it. */
  lemma {:induction false} OfferedStays(now: Files, temp: Path, u: Files, yaml: Frontmatter.Yaml,
                                        readable: Path -> bool, root: Path, dir: Path)
    requires Closed(now) && IsDir(now, temp) && Holds(now, temp, u) && SearchStays(u, root)
    requires Offered(now, yaml, readable, temp + root, dir)
    ensures temp <= dir && Reached(u, dir[|temp|..]).Within?
            && Real(now, dir) == Some(temp + Reached(u, dir[|temp|..]).place)
  {
    Frontmatter.SkillInHere(now, yaml, dir);
    RootFromTemp(temp, root, dir);
    if dir in Frontmatter.SearchRoots(temp + root) {
      var rel := dir[|temp|..];
      LookupInTemp(now, temp, u, rel);
      assert BaseStays(u, rel);
    } else {
      var base, n := dir[..|dir| - 1], dir[|dir| - 1];
      RootFromTemp(temp, root, base);
      var rel := base[|temp|..];
      LookupInTemp(now, temp, u, rel);
      assert BaseStays(u, rel);
      ChildrenInTemp(now, temp, u, Reached(u, rel).place, n);
      EntryInTemp(temp, rel, n, dir);
      LookupInTemp(now, temp, u, rel + [n]);
    }
  }

  lemma {:induction false} EntryInTemp(temp: Path, rel: Path, n: string, dir: Path)
    requires dir != [] && dir[..|dir| - 1] == temp + rel && dir[|dir| - 1] == n
    ensures dir == temp + (rel + [n]) && temp <= dir && dir[|temp|..] == rel + [n]
  {
    InitAndLast(dir);
    Assoc(temp, rel, [n]);
    DropPast(temp, rel + [n], |temp|);
  }

  // -------------------------------------------------- and some host uses the way out

  /** `u` at `temp`, the directory `names` from the root, and a `SKILL.md` in it. */
  function Host(temp: Path, u: Files, names: Path, text: string): Files {
    var taken := names + ["SKILL.md"];
    map p | p in {[]} + (set r | r in u :: temp + r) + (set k | 0 <= k <= |taken| :: taken[..k])
          :: if p == [] then Dir
             else if temp <= p then (if p[|temp|..] in u then u[p[|temp|..]] else Dir)
             else if p == taken then File(text)
             else Dir
  }

  /** A name that stands neither for `SKILL.md` nor for the first of `names`. */
  function Fresh(names: Path): string {
    if names != [] && names[0] == "t" then "tt" else "t"
  }

  lemma {:induction false} HostKeys(temp: Path, u: Files, names: Path, text: string, p: Path)
    requires temp == [Fresh(names)] && IsDir(u, [])
    ensures p in Host(temp, u, names, text) <==>
            p == [] || (temp <= p && p[1..] in u) || (!(temp <= p) && p <= names + ["SKILL.md"])
  {
    var taken, host := names + ["SKILL.md"], Host(temp, u, names, text);
    assert taken[0] != temp[0];
    if temp <= p {
      assert p == temp + p[1..];
      forall k | 0 <= k <= |taken| ensures p != taken[..k] {
        assert p[0] == temp[0];
      }
      if p in host {
        var r :| r in u && p == temp + r;
        DropPast(temp, r, 1);
      }
    } else {
      forall r | r in u ensures p != temp + r {
        assert temp <= temp + r;
      }
      if p <= taken {
        assert p == taken[..|p|];
      }
    }
  }

  lemma {:induction false} HostValue(temp: Path, u: Files, names: Path, text: string, p: Path)
    requires temp == [Fresh(names)] && IsDir(u, []) && p in Host(temp, u, names, text)
    ensures Host(temp, u, names, text)[p] ==
            if temp <= p && p[1..] in u then u[p[1..]] else if p == names + ["SKILL.md"] then File(text) else Dir
  {
    HostKeys(temp, u, names, text, p);
    assert (names + ["SKILL.md"])[0] != temp[0];
  }

  lemma {:induction false} HostSurrounds(temp: Path, u: Files, names: Path, text: string)
    requires temp == [Fresh(names)] && Closed(u) && IsDir(u, [])
    ensures Surrounds(Host(temp, u, names, text), temp, u)
  {
    var host := Host(temp, u, names, text);
    forall p | p in host && p != [] ensures IsDir(host, p[..|p| - 1]) {
      HostParent(temp, u, names, text, p);
    }
    forall r ensures At(host, temp, r) == if r in u then Some(u[r]) else None {
      HostKeys(temp, u, names, text, temp + r);
      DropPast(temp, r, 1);
      if r in u {
        HostValue(temp, u, names, text, temp + r);
      }
    }
    AppendNothing(temp);
    assert At(host, temp, []) == Some(Dir);
  }

  lemma {:induction false} HostParent(temp: Path, u: Files, names: Path, text: string, p: Path)
    requires temp == [Fresh(names)] && Closed(u) && IsDir(u, [])
    requires p in Host(temp, u, names, text) && p != []
    ensures IsDir(Host(temp, u, names, text), p[..|p| - 1])
  {
    var parent := p[..|p| - 1];
    HostKeys(temp, u, names, text, p);
    HostKeys(temp, u, names, text, parent);
    if temp <= p && p != temp {
      assert temp <= parent && p[1..][..|p[1..]| - 1] == parent[1..];
      assert IsDir(u, parent[1..]);
    } else if !(temp <= p) {
      assert parent <= names + ["SKILL.md"];
      assert !(temp <= parent);
    }
    HostValue(temp, u, names, text, parent);
  }

  /** The way out of the tree ends in the directory `names`, which holds the skill. */
  lemma {:induction false} HostLeads(temp: Path, u: Files, names: Path, text: string, links: nat)
    requires temp == [Fresh(names)] && Closed(u) && IsDir(u, [])
    ensures var host := Host(temp, u, names, text);
            && Walk(host, [], names, links) == Some(names)
            && Walk(host, [], names + ["SKILL.md"], links) == Some(names + ["SKILL.md"])
            && names + ["SKILL.md"] in host && host[names + ["SKILL.md"]] == File(text)
            && !(temp <= names)
  {
    var host, file := Host(temp, u, names, text), names + ["SKILL.md"];
    HostSurrounds(temp, u, names, text);
    assert file[0] != temp[0];
    HostKeys(temp, u, names, text, file);
    HostValue(temp, u, names, text, file);
    HostKeys(temp, u, names, text, names);
    HostValue(temp, u, names, text, names);
    assert names != file && !(temp <= names);
    EmptyFirst(names);
    EmptyFirst(file);
    WalkStraight(host, [], names, links);
    WalkStraight(host, [], file, links);
  }

  /** What comes after a path that leaves is looked up outside as well. */
  lemma {:induction false} TraceExtends(u: Files, dir: Path, names: Path, last: string, links: nat)
    requires Trace(u, dir, names, links).Outside?
    ensures Trace(u, dir, names + [last], links) ==
            Trace(u, dir, names, links).(names := Trace(u, dir, names, links).names + [last])
    decreases links, |names|
  {
    var p, rest := dir + [names[0]], names[1..];
    HeadAndTail(names);
    ConsAppend(names[0], rest, [last]);
    match u[p]
    case Symlink(link) =>
      Assoc(link.names, rest, [last]);
      if !link.absolute && link.ups <= |dir| {
        TraceExtends(u, LinkBase(dir, link), link.names + rest, last, links - 1);
      }
    case Dir => TraceExtends(u, p, rest, last, links);
  }

  /** On some file system, a searched path that leaves offers a skill from outside. */
  lemma {:induction false} LeavingIsOffered(u: Files, root: Path, rel: Path, yaml: Frontmatter.Yaml, text: string)
    requires Closed(u) && IsDir(u, []) && Leaves(u, rel)
    requires Frontmatter.Block(text).Some? && yaml(Frontmatter.Block(text).value).Some?
    ensures var names := Reached(u, rel).names;
            var temp := [Fresh(names)];
            var host := Host(temp, u, names, text);
            && Surrounds(host, temp, u) && !(temp <= names) && Real(host, temp + rel) == Some(names)
            && Frontmatter.SkillIn(host, yaml, temp + rel).Some?
  {
    var out := Reached(u, rel);
    var names := out.names;
    var temp := [Fresh(names)];
    var host := Host(temp, u, names, text);
    HostSurrounds(temp, u, names, text);
    HostLeads(temp, u, names, text, out.links);
    LandsOutside(host, temp, u, rel);
  }

  /** A path that leaves a tree just below the root goes on from the root. */
  lemma {:induction false} LandsOutside(now: Files, temp: Path, u: Files, rel: Path)
    requires Surrounds(now, temp, u) && |temp| == 1 && Leaves(u, rel)
    ensures var out := Reached(u, rel);
            && Real(now, temp + rel) == Walk(now, [], out.names, out.links)
            && Real(now, temp + rel + ["SKILL.md"]) == Walk(now, [], out.names + ["SKILL.md"], out.links)
  {
    var out := Reached(u, rel);
    OutsideStarts(u, [], rel, LINK_LIMIT);
    AboveOne(temp, out.above);
    LookupInTemp(now, temp, u, rel);
    TraceExtends(u, [], rel, "SKILL.md", LINK_LIMIT);
    Assoc(temp, rel, ["SKILL.md"]);
    LookupInTemp(now, temp, u, rel + ["SKILL.md"]);
  }

  lemma {:induction false} AboveOne(temp: Path, above: nat)
    requires |temp| == 1
    ensures above > 0 ==> (if above > |temp| then [] else temp[..|temp| - above]) == []
  {
  }

  lemma {:induction false} OutsideStarts(u: Files, dir: Path, names: Path, links: nat)
    ensures Trace(u, dir, names, links).Outside? ==>
            Trace(u, dir, names, links).absolute || Trace(u, dir, names, links).above > 0
    decreases links, |names|
  {
    if names != [] && dir + [names[0]] in u {
      var p, rest := dir + [names[0]], names[1..];
      match u[p]
      case Symlink(link) =>
        if links > 0 && !link.absolute && link.ups <= |dir| {
          OutsideStarts(u, LinkBase(dir, link), link.names + rest, links - 1);
        }
      case Dir => OutsideStarts(u, p, rest, links);
      case _ =>
    }
  }

  /** Wherever the tree lies and whatever surrounds it, every skill offered lies in it. */
  ghost predicate AlwaysInside(u: Files, root: Path, yaml: Frontmatter.Yaml) {
    forall now, temp, readable, dir :: InsideHere(u, root, yaml, now, temp, readable, dir)
  }

  /** `dir`, if it is offered below `temp` + `root`, lies in the tree at `temp`. */
  ghost predicate InsideHere(u: Files, root: Path, yaml: Frontmatter.Yaml, now: Files, temp: Path,
                             readable: Path -> bool, dir: Path) {
    Surrounds(now, temp, u) && Offered(now, yaml, readable, temp + root, dir) ==>
      Real(now, dir).Some? && temp <= Real(now, dir).value
  }

  /** A search whose paths do not stay has one that leaves. */
  lemma {:induction false} LeaverFound(u: Files, root: Path) returns (base: Path, rel: Path)
    requires !SearchStays(u, root)
    ensures base in Frontmatter.SearchRoots(root) && Leaves(u, rel)
    ensures rel == base || (Reached(u, base).Within? && IsDir(u, Reached(u, base).place)
                            && rel != [] && rel[..|rel| - 1] == base
                            && rel[|rel| - 1] in Children(u, Reached(u, base).place))
  {
    base :| base in Frontmatter.SearchRoots(root) && !BaseStays(u, base);
    if Leaves(u, base) {
      rel := base;
    } else {
      var n :| n in Children(u, Reached(u, base).place) && Leaves(u, base + [n]);
      rel := base + [n];
      Frontmatter.SnocParts(base, n);
    }
  }

  /** The path that leaves is one that discovery searches. */
  lemma {:induction false} LeaverSearched(now: Files, temp: Path, u: Files, root: Path, base: Path, rel: Path)
    requires Surrounds(now, temp, u) && base in Frontmatter.SearchRoots(root)
    requires rel == base || (Reached(u, base).Within? && IsDir(u, Reached(u, base).place)
                             && rel != [] && rel[..|rel| - 1] == base
                             && rel[|rel| - 1] in Children(u, Reached(u, base).place))
    ensures Frontmatter.Searched(now, Anything, temp + root, temp + rel)
  {
    RootFromTemp(temp, root, temp + base);
    DropPast(temp, base, |temp|);
    if rel != base {
      var n, dir := rel[|rel| - 1], temp + rel;
      InitAndLast(rel);
      Assoc(temp, base, [n]);
      Frontmatter.SnocParts(temp + base, n);
      LookupInTemp(now, temp, u, base);
      ChildrenInTemp(now, temp, u, Reached(u, base).place, n);
    }
  }

  lemma {:induction false} StayingIsInside(u: Files, root: Path, yaml: Frontmatter.Yaml)
    requires SearchStays(u, root)
    ensures AlwaysInside(u, root, yaml)
  {
    forall now, temp, readable, dir ensures InsideHere(u, root, yaml, now, temp, readable, dir) {
      if Surrounds(now, temp, u) && Offered(now, yaml, readable, temp + root, dir) {
        OfferedStays(now, temp, u, yaml, readable, root, dir);
      }
    }
  }

  lemma {:induction false} LeavingIsSomewhereOutside(u: Files, root: Path, yaml: Frontmatter.Yaml, text: string)
    requires Closed(u) && IsDir(u, []) && !SearchStays(u, root)
    requires Frontmatter.Block(text).Some? && yaml(Frontmatter.Block(text).value).Some?
    ensures !AlwaysInside(u, root, yaml)
  {
    var base, rel := LeaverFound(u, root);
    var names := Reached(u, rel).names;
    var temp := [Fresh(names)];
    var host := Host(temp, u, names, text);
    LeavingIsOffered(u, root, rel, yaml, text);
    LeaverSearched(host, temp, u, root, base, rel);
    NotInside(u, root, yaml, host, temp, Anything, temp + rel);
  }

  lemma {:induction false} NotInside(u: Files, root: Path, yaml: Frontmatter.Yaml, now: Files, temp: Path,
                                     readable: Path -> bool, dir: Path)
    requires Surrounds(now, temp, u) && Offered(now, yaml, readable, temp + root, dir)
    requires Real(now, dir).Some? && !(temp <= Real(now, dir).value)
    ensures !AlwaysInside(u, root, yaml)
  {
    assert !InsideHere(u, root, yaml, now, temp, readable, dir);
  }

  /** Every skill offered lies in the tree, on every file system, exactly when no
      searched path passes through a link that leaves the tree. */
  lemma {:induction false} AlwaysInsideIff(u: Files, root: Path, yaml: Frontmatter.Yaml, text: string)
    requires Closed(u) && IsDir(u, [])
    requires Frontmatter.Block(text).Some? && yaml(Frontmatter.Block(text).value).Some?
    ensures AlwaysInside(u, root, yaml) <==> SearchStays(u, root)
  {
    if SearchStays(u, root) {
      StayingIsInside(u, root, yaml);
    } else {
      LeavingIsSomewhereOutside(u, root, yaml, text);
    }
  }

  // --------------------------------------------------------- cloned repositories

  /** The temporary directory with a cloned tree in it. */
  function InTemp(tree: Files): Files {
    map p | p in {[]} + (set r | r in tree :: ["repo"] + r) :: if p == [] || p[1..] !in tree then Dir else tree[p[1..]]
  }

  lemma {:induction false} InTempAt(tree: Files, p: Path)
    ensures p in InTemp(tree) <==> p == [] || (p[0] == "repo" && p[1..] in tree)
    ensures p in InTemp(tree) ==> InTemp(tree)[p] == if p == [] then Dir else tree[p[1..]]
  {
    if p != [] {
      HeadAndTail(p);
      forall r | r in tree && p == ["repo"] + r ensures p[0] == "repo" && p[1..] == r {}
    }
  }

  lemma {:induction false} InTempClosed(tree: Files)
    requires Closed(tree) && IsDir(tree, [])
    ensures Closed(InTemp(tree)) && IsDir(InTemp(tree), [])
  {
    var u := InTemp(tree);
    forall p | p in u && p != [] ensures IsDir(u, p[..|p| - 1]) {
      InTempAt(tree, p);
      InTempAt(tree, p[..|p| - 1]);
      if |p| > 1 {
        assert p[1..][..|p| - 2] == p[..|p| - 1][1..];
        assert IsDir(tree, p[1..][..|p[1..]| - 1]);
      }
    }
    InTempAt(tree, []);
  }

  /** After the clone, the temporary directory holds the cloned tree and nothing else. */
  lemma {:induction false} CloneHolds(fs: FileSystem, made: Files, fetched: Files, origin: SkillInstall.Origin,
                                      temp: Path)
    requires SkillInstall.EmptyTemp(made, temp) && OnlyAt(made, fetched, temp + ["repo"])
    requires origin.FromGit? && SkillInstall.Fetched(fs, made, fetched, origin, temp + ["repo"])
    ensures IsDir(fetched, temp) && Holds(fetched, temp, InTemp(origin.tree))
  {
    var tree, clone := origin.tree, temp + ["repo"];
    assert !(clone <= temp);
    forall r ensures At(fetched, temp, r) == if r in InTemp(tree) then Some(InTemp(tree)[r]) else None {
      InTempAt(tree, r);
      if r == [] {
        AtNil(fetched, temp);
      } else {
        HeadAndTail(r);
        if r[0] == "repo" {
          AtCons(fetched, temp, "repo", r[1..]);
          assert At(fetched, clone, r[1..]) == if r[1..] in tree then Some(tree[r[1..]]) else None;
        } else {
          NotInClone(temp, r);
          assert temp <= temp + r && temp + r != temp;
        }
      }
    }
  }

  lemma {:induction false} NotInClone(temp: Path, r: Path)
    requires r != [] && r[0] != "repo"
    ensures !(temp + ["repo"] <= temp + r) && !(temp + r <= temp + ["repo"])
  {
    assert (temp + r)[|temp|] == r[0] && (temp + ["repo"])[|temp|] == "repo";
  }

  lemma {:induction false} EnterAppends(a: Path, b: Path, parts: seq<string>)
    requires ".." !in parts
    ensures SkillSource.Enter(a + b, parts) == a + SkillSource.Enter(b, parts)
  {
    if parts != [] {
      var init, last := parts[..|parts| - 1], parts[|parts| - 1];
      assert ".." !in init;
      EnterAppends(a, b, init);
      Assoc(a, SkillSource.Enter(b, init), [last]);
    }
  }

  /** The search root lies at the same place of the tree wherever that is. */
  lemma {:induction false} RootInTemp(origin: SkillInstall.Origin, temp: Path)
    requires SkillInstall.SearchRoot(origin, ["repo"]).Ok?
    ensures SkillInstall.SearchRoot(origin, temp + ["repo"]) ==
            Ok(temp + SkillInstall.SearchRoot(origin, ["repo"]).value)
  {
    if origin.FromGit? && origin.subdir.Some? {
      SkillSource.SafeSubdirHasNoParent(origin.subdir.value);
      EnterAppends(temp, ["repo"], SkillSource.Split(origin.subdir.value, '/'));
    }
  }

  /** No searched path of the cloned tree passes through a link that leaves it. */
  predicate TreeStays(origin: SkillInstall.Origin)
    requires origin.FromGit?
  {
    SkillInstall.SearchRoot(origin, ["repo"]).Ok? ==>
      SearchStays(InTemp(origin.tree), SkillInstall.SearchRoot(origin, ["repo"]).value)
  }

  /** A directory of the temporary directory with a `SKILL.md` lies in the clone. */
  lemma {:induction false} SkillInClone(now: Files, temp: Path, tree: Files, yaml: Frontmatter.Yaml, dir: Path,
                                        place: Path)
    requires Surrounds(now, temp, InTemp(tree)) && Frontmatter.SkillIn(now, yaml, dir).Some?
    requires Real(now, dir) == Some(temp + place)
    ensures temp + ["repo"] <= temp + place
  {
    PathIsDir(now, temp, 0);
    LookupSplits(now, dir, "SKILL.md");
    Assoc(temp, place, ["SKILL.md"]);
    HoldsAt(now, temp, InTemp(tree), place + ["SKILL.md"]);
    InTempAt(tree, place + ["SKILL.md"]);
    EmptyFirst(["SKILL.md"]);
    HeadAndTail(place);
    Assoc(temp, ["repo"], place[1..]);
  }

  /** Wherever the clone is made, every skill offered lies in the clone. */
  ghost predicate AlwaysInClone(origin: SkillInstall.Origin, yaml: Frontmatter.Yaml)
    requires origin.FromGit? && SkillInstall.SearchRoot(origin, ["repo"]).Ok?
  {
    forall now, temp, readable, dir :: CloneHere(origin, yaml, now, temp, readable, dir)
  }

  /** `dir`, if it is offered in a clone below `temp`, lies in the clone. */
  ghost predicate CloneHere(origin: SkillInstall.Origin, yaml: Frontmatter.Yaml, now: Files, temp: Path,
                            readable: Path -> bool, dir: Path)
    requires origin.FromGit? && SkillInstall.SearchRoot(origin, ["repo"]).Ok?
  {
    Surrounds(now, temp, InTemp(origin.tree))
    && Offered(now, yaml, readable, temp + SkillInstall.SearchRoot(origin, ["repo"]).value, dir) ==>
      Real(now, dir).Some? && temp + ["repo"] <= Real(now, dir).value
  }

  lemma {:induction false} OfferedInClone(now: Files, temp: Path, origin: SkillInstall.Origin, yaml: Frontmatter.Yaml,
                                          readable: Path -> bool, dir: Path)
    requires origin.FromGit? && SkillInstall.SearchRoot(origin, ["repo"]).Ok? && TreeStays(origin)
    requires Surrounds(now, temp, InTemp(origin.tree))
    requires Offered(now, yaml, readable, temp + SkillInstall.SearchRoot(origin, ["repo"]).value, dir)
    ensures Real(now, dir).Some? && temp + ["repo"] <= Real(now, dir).value
    ensures temp <= dir && Reached(InTemp(origin.tree), dir[|temp|..]).Within?
  {
    var u := InTemp(origin.tree);
    OfferedStays(now, temp, u, yaml, readable, SkillInstall.SearchRoot(origin, ["repo"]).value, dir);
    SkillInClone(now, temp, origin.tree, yaml, dir, Reached(u, dir[|temp|..]).place);
  }

  lemma {:induction false} CloneIsInside(temp: Path, place: Path)
    ensures temp + ["repo"] <= place ==> temp <= place
  {
    if temp + ["repo"] <= place {
      PrefixTrans(temp, temp + ["repo"], place);
    }
  }

  /** What is installed comes from inside the clone, wherever that is made, exactly
      when no searched path of the cloned tree passes through a link that leaves it. */
  lemma {:induction false} AlwaysInCloneIff(origin: SkillInstall.Origin, yaml: Frontmatter.Yaml, text: string)
    requires origin.FromGit? && Closed(origin.tree) && IsDir(origin.tree, [])
             && SkillInstall.SearchRoot(origin, ["repo"]).Ok?
    requires Frontmatter.Block(text).Some? && yaml(Frontmatter.Block(text).value).Some?
    ensures AlwaysInClone(origin, yaml) <==> TreeStays(origin)
  {
    var u, root := InTemp(origin.tree), SkillInstall.SearchRoot(origin, ["repo"]).value;
    InTempClosed(origin.tree);
    AlwaysInsideIff(u, root, yaml, text);
    if TreeStays(origin) {
      forall now, temp, readable, dir ensures CloneHere(origin, yaml, now, temp, readable, dir) {
        if Surrounds(now, temp, u) && Offered(now, yaml, readable, temp + root, dir) {
          OfferedInClone(now, temp, origin, yaml, readable, dir);
        }
      }
    }
    if AlwaysInClone(origin, yaml) {
      forall now, temp, readable, dir ensures InsideHere(u, root, yaml, now, temp, readable, dir) {
        assert CloneHere(origin, yaml, now, temp, readable, dir);
        if Real(now, dir).Some? {
          CloneIsInside(temp, Real(now, dir).value);
        }
      }
    }
  }

  // ------------------------------------------------------------- installations

  /** Clearing the staging directory does not redirect a path that stays in `temp`. */
  lemma {:induction false} StillReached(now: Files, temp: Path, u: Files, rel: Path, staging: Path)
    requires Closed(now) && IsDir(now, temp) && Holds(now, temp, u) && Apart(temp, staging)
    requires Reached(u, rel).Within? && IsRealDir(now, temp + rel)
    ensures var rest := Without(now, staging);
            && Real(rest, temp + rel) == Real(now, temp + rel)
            && ReadsApart(rest, temp + rel, staging)
  {
    var rest := Without(now, staging);
    WithoutClosed(now, staging);
    SkillInstall.WithoutKeeps(now, staging, temp);
    SkillInstall.SameTreeAt(now, rest, temp);
    assert temp <= temp && SkillInstall.SameEntry(now, rest, temp);
    forall r ensures At(rest, temp, r) == if r in u then Some(u[r]) else None {
      assert At(rest, temp, r) == At(now, temp, r);
    }
    LookupInTemp(now, temp, u, rel);
    LookupInTemp(rest, temp, u, rel);
    var place := temp + Reached(u, rel).place;
    assert temp <= place && SkillInstall.SameEntry(now, rest, place);
    NotBoth(temp, staging, place);
    NotAbove(temp, staging, place);
  }

  /** The located skill is one that discovery offers in the clone. */
  lemma {:induction false} LocatedIsOffered(fs: FileSystem, made: Files, fetched: Files, origin: SkillInstall.Origin,
                                            select: Option<string>, yaml: Frontmatter.Yaml, list: Frontmatter.Listing,
                                            temp: Path, found: Result<Frontmatter.Found, SkillInstall.InstallError>)
    requires SkillInstall.EmptyTemp(made, temp) && temp != [] && origin.FromGit?
    requires SkillInstall.Located(fs, made, fetched, origin, select, yaml, list, temp, found) && found.Ok?
    requires Frontmatter.Lists(fetched, fs.readable, list)
    ensures Surrounds(fetched, temp, InTemp(origin.tree)) && SkillInstall.SearchRoot(origin, ["repo"]).Ok?
    ensures Offered(fetched, yaml, fs.readable, temp + SkillInstall.SearchRoot(origin, ["repo"]).value, found.value.dir)
    ensures IsRealDir(fetched, found.value.dir)
  {
    CloneHolds(fs, made, fetched, origin, temp);
    SkillInstall.ChosenIsBelow(fetched, origin, temp + ["repo"], select, yaml, list);
    SafeEither(origin, temp);
    RootInTemp(origin, temp);
    Frontmatter.DiscoveredIff(fetched, yaml, fs.readable, list, temp + SkillInstall.SearchRoot(origin, ["repo"]).value,
                              found.value);
  }

  /** When the search of a cloned tree stays, the skill that is installed is read
      from inside the clone, and the whole of it is promised. */
  lemma {:induction false} InstalledFromClone(fs: FileSystem, made: Files, fetched: Files, origin: SkillInstall.Origin,
                                              select: Option<string>, yaml: Frontmatter.Yaml, list: Frontmatter.Listing,
                                              temp: Path, found: Result<Frontmatter.Found, SkillInstall.InstallError>,
                                              staging: Path)
    requires SkillInstall.EmptyTemp(made, temp) && Apart(temp, staging)
    requires SkillInstall.Located(fs, made, fetched, origin, select, yaml, list, temp, found) && found.Ok?
    requires Frontmatter.Lists(fetched, fs.readable, list)
    requires origin.FromGit? && TreeStays(origin)
    ensures Real(fetched, found.value.dir).Some? && temp + ["repo"] <= Real(fetched, found.value.dir).value
    ensures SkillInstall.Source(fetched, found.value.dir, staging) == Real(fetched, found.value.dir)
    ensures ReadsApart(Without(fetched, staging), found.value.dir, staging)
  {
    LocatedIsOffered(fs, made, fetched, origin, select, yaml, list, temp, found);
    OfferedIsSource(fetched, temp, origin, yaml, fs.readable, found.value.dir, staging);
  }

  lemma {:induction false} OfferedIsSource(now: Files, temp: Path, origin: SkillInstall.Origin, yaml: Frontmatter.Yaml,
                                           readable: Path -> bool, dir: Path, staging: Path)
    requires origin.FromGit? && SkillInstall.SearchRoot(origin, ["repo"]).Ok? && TreeStays(origin)
    requires Surrounds(now, temp, InTemp(origin.tree)) && Apart(temp, staging) && IsRealDir(now, dir)
    requires Offered(now, yaml, readable, temp + SkillInstall.SearchRoot(origin, ["repo"]).value, dir)
    ensures temp + ["repo"] <= Real(now, dir).value
    ensures SkillInstall.Source(now, dir, staging) == Real(now, dir)
    ensures ReadsApart(Without(now, staging), dir, staging)
  {
    OfferedInClone(now, temp, origin, yaml, readable, dir);
    Suffix(temp, dir);
    StillReached(now, temp, InTemp(origin.tree), dir[|temp|..], staging);
  }

  lemma {:induction false} SafeEither(origin: SkillInstall.Origin, temp: Path)
    ensures SkillInstall.SearchRoot(origin, temp + ["repo"]).Ok? <==> SkillInstall.SearchRoot(origin, ["repo"]).Ok?
  {
  }

  // -------------------------------------------------------------- local sources

  ghost predicate LinkFree(u: Files) {
    forall p :: p in u ==> !u[p].Symlink?
  }

  /** Without links, a path leads to itself or nowhere. */
  lemma {:induction false} LinkFreeTrace(u: Files, dir: Path, names: Path, links: nat)
    requires LinkFree(u)
    ensures Trace(u, dir, names, links) == Within(dir + names) || Trace(u, dir, names, links) == Nowhere
    decreases |names|
  {
    if names == [] {
      AppendNothing(dir);
    } else {
      HeadAndTail(names);
      Assoc(dir, [names[0]], names[1..]);
      if names[1..] == [] {
        AppendNothing(dir + [names[0]]);
      }
      LinkFreeTrace(u, dir + [names[0]], names[1..], links);
    }
  }

  function Below(now: Files, temp: Path): Files {
    map r | r in (set p | p in now && temp <= p :: p[|temp|..]) && temp + r in now :: now[temp + r]
  }

  lemma {:induction false} BelowHolds(now: Files, temp: Path)
    ensures Holds(now, temp, Below(now, temp))
  {
    forall r ensures At(now, temp, r) == if r in Below(now, temp) then Some(Below(now, temp)[r]) else None {
      BelowAt(now, temp, r);
    }
  }

  lemma {:induction false} BelowAt(now: Files, temp: Path, r: Path)
    ensures r in Below(now, temp) <==> temp + r in now
    ensures r in Below(now, temp) ==> Below(now, temp)[r] == now[temp + r]
  {
    DropPast(temp, r, |temp|);
    assert temp <= temp + r && (temp + r)[|temp|..] == r;
  }

  /** The fetched copy of a local source holds no links. */
  lemma {:induction false} LocalHasNoLink(made: Files, fetched: Files, readable: Path -> bool, src: Path, temp: Path,
                                          p: Path)
    requires SkillInstall.EmptyTemp(made, temp) && OnlyAt(made, fetched, temp + ["repo"])
    requires SkillInstall.IsCopy(made, readable, src, fetched, temp + ["repo"])
    requires p in fetched && temp <= p
    ensures !fetched[p].Symlink?
  {
    var clone := temp + ["repo"];
    if clone <= p {
      Suffix(clone, p);
      assert At(fetched, clone, p[|clone|..]) == CopiedAt(made, readable, src, p[|clone|..]);
    }
  }

  lemma {:induction false} LocalIsLinkFree(made: Files, fetched: Files, readable: Path -> bool, src: Path, temp: Path)
    requires SkillInstall.EmptyTemp(made, temp) && OnlyAt(made, fetched, temp + ["repo"])
    requires SkillInstall.IsCopy(made, readable, src, fetched, temp + ["repo"])
    ensures LinkFree(Below(fetched, temp)) && IsDir(fetched, temp)
  {
    assert !(temp + ["repo"] <= temp);
    forall r | r in Below(fetched, temp) ensures !Below(fetched, temp)[r].Symlink? {
      BelowAt(fetched, temp, r);
      assert temp <= temp + r;
      LocalHasNoLink(made, fetched, readable, src, temp, temp + r);
    }
  }

  /** Below a directory without links, a path that leads to something leads there. */
  lemma {:induction false} LinkFreeLookup(now: Files, temp: Path, dir: Path)
    requires Closed(now) && IsDir(now, temp) && LinkFree(Below(now, temp)) && temp <= dir && Real(now, dir).Some?
    ensures Real(now, dir) == Some(dir) && Reached(Below(now, temp), dir[|temp|..]).Within?
  {
    var u, rel := Below(now, temp), dir[|temp|..];
    BelowHolds(now, temp);
    Suffix(temp, dir);
    LookupInTemp(now, temp, u, rel);
    LinkFreeTrace(u, [], rel, LINK_LIMIT);
    EmptyFirst(rel);
  }

  /** The skill of a local source is read from the very directory it was found in. */
  lemma {:induction false} InstalledFromLocal(fs: FileSystem, made: Files, fetched: Files, path: Path,
                                              select: Option<string>, yaml: Frontmatter.Yaml, list: Frontmatter.Listing,
                                              temp: Path, found: Result<Frontmatter.Found, SkillInstall.InstallError>,
                                              staging: Path)
    requires SkillInstall.EmptyTemp(made, temp) && Apart(temp, staging) && ReadsApart(made, path, temp + ["repo"])
    requires SkillInstall.Located(fs, made, fetched, SkillInstall.FromLocal(path), select, yaml, list, temp, found)
             && found.Ok?
    ensures SkillInstall.Source(fetched, found.value.dir, staging) == Some(found.value.dir)
    ensures ReadsApart(Without(fetched, staging), found.value.dir, staging)
  {
    LocalIsLinkFree(made, fetched, fs.readable, Real(made, path).value, temp);
    PrefixTrans(temp, temp + ["repo"], found.value.dir);
    LinkFreeSource(fetched, temp, found.value.dir, staging);
  }

  lemma {:induction false} LinkFreeSource(now: Files, temp: Path, dir: Path, staging: Path)
    requires Closed(now) && IsDir(now, temp) && LinkFree(Below(now, temp)) && temp <= dir && IsRealDir(now, dir)
    requires Apart(temp, staging)
    ensures SkillInstall.Source(now, dir, staging) == Some(dir) && ReadsApart(Without(now, staging), dir, staging)
  {
    LinkFreeLookup(now, temp, dir);
    BelowHolds(now, temp);
    Suffix(temp, dir);
    StillReached(now, temp, Below(now, temp), dir[|temp|..], staging);
  }
}
